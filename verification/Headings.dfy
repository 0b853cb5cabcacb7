/**
 * The heading outline score: a weighted edit distance whose substitutions
 * compare level and label, and which is the cost of the cheapest
 * order-preserving alignment of the two outlines.
 */
module Headings {
  import opened Sequences
  import EditDistance
  import Reals

  datatype Heading = Heading(level: int, text: string)

  /** A heading as found in the document; a missing or ill-typed field is `None`. */
  datatype RawHeading = RawHeading(level: Option<int>, text: Option<string>)

  /** Text normalisation: `nfc` for comparison, `scalar` for stored labels ("" exactly on blank text). */
  datatype Normaliser = Normaliser(nfc: string -> string, scalar: string -> string)

  function Canonical(norm: Normaliser, raw: RawHeading): Option<Heading> {
    if raw.level.None? || raw.level.value < 1 || raw.level.value > 6 || raw.text.None? ||
      norm.scalar(raw.text.value) == ""
    then None
    else Some(Heading(raw.level.value, norm.scalar(raw.text.value)))
  }

  function Outline(norm: Normaliser, raw: seq<RawHeading>): (outline: seq<Option<Heading>>)
    ensures |outline| == |raw|
    ensures forall k :: 0 <= k < |raw| ==> outline[k] == Canonical(norm, raw[k])
  {
    seq(|raw|, k requires 0 <= k < |raw| => Canonical(norm, raw[k]))
  }

  function SubstitutionCost(norm: Normaliser, left: Heading, right: Option<Heading>): real {
    if right.None? then 1.0
    else
      var levelCost := if left.level != right.value.level then 1.0 else 0.0;
      var labelCost := 1.0 - EditDistance.NormalizedEditSimilarity(norm.nfc, left.text, right.value.text);
      (levelCost + labelCost) / 2.0
  }

  /** Same level and same label up to normalisation. */
  predicate SameHeading(norm: Normaliser, left: Heading, right: Option<Heading>) {
    right.Some? && left.level == right.value.level && norm.nfc(left.text) == norm.nfc(right.value.text)
  }

  /** A heading counts when its level is one to six and its label is not blank. */
  lemma CanonicalIff(norm: Normaliser, raw: RawHeading)
    ensures Canonical(norm, raw).Some? <==>
      raw.level.Some? && 1 <= raw.level.value <= 6 && raw.text.Some? && norm.scalar(raw.text.value) != ""
    ensures Canonical(norm, raw).Some? ==>
      Canonical(norm, raw).value == Heading(raw.level.value, norm.scalar(raw.text.value))
  {
  }

  /** Level and label count half each: the level all or nothing, the label by its share of edits. */
  lemma SubstitutionCostShares(norm: Normaliser, left: Heading, right: Option<Heading>)
    ensures right.None? ==> SubstitutionCost(norm, left, right) == 1.0
    ensures right.Some? ==>
      var x, y := norm.nfc(left.text), norm.nfc(right.value.text);
      var level := if left.level == right.value.level then 0.0 else 0.5;
      var longest := if |x| >= |y| then |x| else |y|;
      if longest == 0 then SubstitutionCost(norm, left, right) == level
      else Reals.PartOf(SubstitutionCost(norm, left, right) - level, 2 * longest) == EditDistance.Distance(x, y) as real
  {
    if right.Some? {
      var x, y := norm.nfc(left.text), norm.nfc(right.value.text);
      LabelHalf(norm, left, right.value);
      hide *;
      var longest := if |x| >= |y| then |x| else |y|;
      EditDistance.SimilarityMeaning(x, y);
      EditDistance.SimilarityScale(x, y, longest);
      var level := if left.level == right.value.level then 0.0 else 0.5;
      HalfShare(SubstitutionCost(norm, left, right) - level, EditDistance.Similarity(x, y), longest);
    }
  }

  lemma LabelHalf(norm: Normaliser, left: Heading, right: Heading)
    ensures SubstitutionCost(norm, left, Some(right)) - (if left.level == right.level then 0.0 else 0.5)
         == (1.0 - EditDistance.Similarity(norm.nfc(left.text), norm.nfc(right.text))) / 2.0
  {
    hide EditDistance.Similarity;
  }

  lemma HalfShare(rest: real, similarity: real, longest: nat)
    requires rest == (1.0 - similarity) / 2.0
    ensures Reals.PartOf(rest, 2 * longest) == Reals.PartOf(1.0 - similarity, longest)
  {
    assert (2 * longest) as real == 2.0 * longest as real;
  }

  lemma SubstitutionCostBounds(norm: Normaliser, left: Heading, right: Option<Heading>)
    ensures 0.0 <= SubstitutionCost(norm, left, right) <= 1.0
    ensures SubstitutionCost(norm, left, right) == 0.0 <==> SameHeading(norm, left, right)
  {
    if right.Some? {
      EditDistance.SimilarityMeaning(norm.nfc(left.text), norm.nfc(right.value.text));
    }
  }

  function Least(x: real, y: real, z: real): real {
    if x <= y && x <= z then x else if y <= z then y else z
  }

  /** The dynamic program's cell for the first `i` and `j` headings. */
  function PrefixCost(norm: Normaliser, reference: seq<Heading>, candidate: seq<Option<Heading>>, i: nat, j: nat): real
    requires i <= |reference| && j <= |candidate|
  {
    if i == 0 then j as real
    else if j == 0 then i as real
    else
      Least(PrefixCost(norm, reference, candidate, i, j - 1) + 1.0,
            PrefixCost(norm, reference, candidate, i - 1, j) + 1.0,
            PrefixCost(norm, reference, candidate, i - 1, j - 1)
            + SubstitutionCost(norm, reference[i - 1], candidate[j - 1]))
  }

  lemma Cell(norm: Normaliser, reference: seq<Heading>, candidate: seq<Option<Heading>>, i: nat, j: nat)
    requires i <= |reference| && j <= |candidate|
    ensures i == 0 ==> PrefixCost(norm, reference, candidate, i, j) == j as real
    ensures j == 0 ==> PrefixCost(norm, reference, candidate, i, j) == i as real
    ensures i > 0 && j > 0 ==>
      PrefixCost(norm, reference, candidate, i, j)
      == Least(PrefixCost(norm, reference, candidate, i, j - 1) + 1.0,
               PrefixCost(norm, reference, candidate, i - 1, j) + 1.0,
               PrefixCost(norm, reference, candidate, i - 1, j - 1)
               + SubstitutionCost(norm, reference[i - 1], candidate[j - 1]))
  {
  }

  method WeightedLevenshtein(norm: Normaliser, reference: seq<Heading>, candidate: seq<Option<Heading>>)
    returns (distance: real)
    ensures distance == PrefixCost(norm, reference, candidate, |reference|, |candidate|)
  {
    hide PrefixCost, SubstitutionCost;
    var previous: seq<real> := seq(|candidate| + 1, i => i as real);
    forall j | 0 <= j <= |candidate| ensures PrefixCost(norm, reference, candidate, 0, j) == j as real {
      Cell(norm, reference, candidate, 0, j);
    }
    for row := 0 to |reference|
      invariant |previous| == |candidate| + 1
      invariant forall j :: 0 <= j <= |candidate| ==> previous[j] == PrefixCost(norm, reference, candidate, row, j)
    {
      var current: seq<real> := [(row + 1) as real];
      Cell(norm, reference, candidate, row + 1, 0);
      for column := 0 to |candidate|
        invariant |current| == column + 1
        invariant forall j :: 0 <= j <= column ==> current[j] == PrefixCost(norm, reference, candidate, row + 1, j)
      {
        Cell(norm, reference, candidate, row + 1, column + 1);
        var substitution := SubstitutionCost(norm, reference[row], candidate[column]);
        current := current + [Least(current[|current| - 1] + 1.0, previous[column + 1] + 1.0,
                                    previous[column] + substitution)];
      }
      previous := current;
    }
    distance := previous[|previous| - 1];
  }

  // The independent reference: order-preserving alignments.

  /** Pairs of positions below `i` and `j`, increasing on both sides. */
  ghost predicate Alignment(pairs: seq<(nat, nat)>, i: nat, j: nat) {
    && (forall k :: 0 <= k < |pairs| ==> pairs[k].0 < i && pairs[k].1 < j)
    && (forall k, l :: 0 <= k < l < |pairs| ==> pairs[k].0 < pairs[l].0 && pairs[k].1 < pairs[l].1)
  }

  ghost function PairedCost(norm: Normaliser, reference: seq<Heading>, candidate: seq<Option<Heading>>,
                            pairs: seq<(nat, nat)>): real
    requires Alignment(pairs, |reference|, |candidate|)
  {
    if pairs == [] then 0.0
    else
      var last := pairs[|pairs| - 1];
      PairedCost(norm, reference, candidate, pairs[..|pairs| - 1])
      + SubstitutionCost(norm, reference[last.0], candidate[last.1])
  }

  /** Every heading left out of the alignment costs one. */
  ghost function AlignmentCost(norm: Normaliser, reference: seq<Heading>, candidate: seq<Option<Heading>>,
                               pairs: seq<(nat, nat)>, i: nat, j: nat): real
    requires Alignment(pairs, |reference|, |candidate|)
  {
    PairedCost(norm, reference, candidate, pairs) + (i - |pairs|) as real + (j - |pairs|) as real
  }

  lemma {:induction false} AlignmentFits(pairs: seq<(nat, nat)>, i: nat, j: nat)
    requires Alignment(pairs, i, j)
    ensures |pairs| <= i && |pairs| <= j
  {
    if pairs != [] {
      var last := pairs[|pairs| - 1];
      AlignmentFits(pairs[..|pairs| - 1], last.0, last.1);
    }
  }

  lemma {:induction false} NoAlignmentIsCheaper(norm: Normaliser, reference: seq<Heading>,
                                                candidate: seq<Option<Heading>>, pairs: seq<(nat, nat)>, i: nat, j: nat)
    requires i <= |reference| && j <= |candidate|
    requires Alignment(pairs, i, j) && Alignment(pairs, |reference|, |candidate|)
    ensures PrefixCost(norm, reference, candidate, i, j) <= AlignmentCost(norm, reference, candidate, pairs, i, j)
    decreases i + j
  {
    hide PrefixCost, SubstitutionCost;
    Cell(norm, reference, candidate, i, j);
    if i == 0 || j == 0 {
      AlignmentFits(pairs, i, j);
    } else if pairs != [] && pairs[|pairs| - 1] == (i - 1, j - 1) {
      NoAlignmentIsCheaper(norm, reference, candidate, pairs[..|pairs| - 1], i - 1, j - 1);
    } else if pairs == [] || pairs[|pairs| - 1].0 < i - 1 {
      assert Alignment(pairs, i - 1, j);
      NoAlignmentIsCheaper(norm, reference, candidate, pairs, i - 1, j);
    } else {
      assert Alignment(pairs, i, j - 1);
      NoAlignmentIsCheaper(norm, reference, candidate, pairs, i, j - 1);
    }
  }

  lemma {:induction false} CheapestAlignment(norm: Normaliser, reference: seq<Heading>, candidate: seq<Option<Heading>>,
                                             i: nat, j: nat) returns (pairs: seq<(nat, nat)>)
    requires i <= |reference| && j <= |candidate|
    ensures Alignment(pairs, i, j) && Alignment(pairs, |reference|, |candidate|)
    ensures PrefixCost(norm, reference, candidate, i, j) == AlignmentCost(norm, reference, candidate, pairs, i, j)
    decreases i + j
  {
    hide PrefixCost, SubstitutionCost, Alignment, PairedCost;
    Cell(norm, reference, candidate, i, j);
    if i == 0 || j == 0 {
      pairs := [];
      NoPairs(norm, reference, candidate, i, j);
    } else if PrefixCost(norm, reference, candidate, i, j) == PrefixCost(norm, reference, candidate, i, j - 1) + 1.0 {
      pairs := CheapestAlignment(norm, reference, candidate, i, j - 1);
      AlignmentWidens(pairs, i, j - 1, i, j);
    } else if PrefixCost(norm, reference, candidate, i, j) == PrefixCost(norm, reference, candidate, i - 1, j) + 1.0 {
      pairs := CheapestAlignment(norm, reference, candidate, i - 1, j);
      AlignmentWidens(pairs, i - 1, j, i, j);
    } else {
      var shorter := CheapestAlignment(norm, reference, candidate, i - 1, j - 1);
      pairs := shorter + [(i - 1, j - 1)];
      AlignmentExtends(norm, reference, candidate, shorter, i, j);
    }
  }

  lemma NoPairs(norm: Normaliser, reference: seq<Heading>, candidate: seq<Option<Heading>>, i: nat, j: nat)
    ensures Alignment([], i, j) && Alignment([], |reference|, |candidate|)
    ensures AlignmentCost(norm, reference, candidate, [], i, j) == i as real + j as real
  {
  }

  lemma AlignmentWidens(pairs: seq<(nat, nat)>, i: nat, j: nat, i': nat, j': nat)
    requires Alignment(pairs, i, j) && i <= i' && j <= j'
    ensures Alignment(pairs, i', j')
  {
  }

  lemma AlignmentExtends(norm: Normaliser, reference: seq<Heading>, candidate: seq<Option<Heading>>,
                         shorter: seq<(nat, nat)>, i: nat, j: nat)
    requires 0 < i <= |reference| && 0 < j <= |candidate|
    requires Alignment(shorter, i - 1, j - 1) && Alignment(shorter, |reference|, |candidate|)
    ensures var pairs := shorter + [(i - 1, j - 1)];
      && Alignment(pairs, i, j) && Alignment(pairs, |reference|, |candidate|)
      && AlignmentCost(norm, reference, candidate, pairs, i, j)
         == AlignmentCost(norm, reference, candidate, shorter, i - 1, j - 1)
            + SubstitutionCost(norm, reference[i - 1], candidate[j - 1])
  {
    hide SubstitutionCost;
    var pairs := shorter + [(i - 1, j - 1)];
    assert pairs[..|pairs| - 1] == shorter;
  }

  /** The dynamic program finds the cheapest order-preserving alignment. */
  lemma DistanceIsCheapestAlignment(norm: Normaliser, reference: seq<Heading>, candidate: seq<Option<Heading>>)
    ensures exists pairs :: Alignment(pairs, |reference|, |candidate|)
              && AlignmentCost(norm, reference, candidate, pairs, |reference|, |candidate|)
                 == PrefixCost(norm, reference, candidate, |reference|, |candidate|)
    ensures forall pairs :: Alignment(pairs, |reference|, |candidate|) ==>
              PrefixCost(norm, reference, candidate, |reference|, |candidate|)
              <= AlignmentCost(norm, reference, candidate, pairs, |reference|, |candidate|)
  {
    hide PrefixCost, SubstitutionCost;
    var best := CheapestAlignment(norm, reference, candidate, |reference|, |candidate|);
    forall pairs | Alignment(pairs, |reference|, |candidate|)
      ensures PrefixCost(norm, reference, candidate, |reference|, |candidate|)
              <= AlignmentCost(norm, reference, candidate, pairs, |reference|, |candidate|)
    {
      NoAlignmentIsCheaper(norm, reference, candidate, pairs, |reference|, |candidate|);
    }
  }

  lemma {:induction false} CostBounds(norm: Normaliser, reference: seq<Heading>, candidate: seq<Option<Heading>>,
                                      i: nat, j: nat)
    requires i <= |reference| && j <= |candidate|
    ensures PrefixCost(norm, reference, candidate, i, j) <= EditDistance.Max(i, j) as real
    ensures PrefixCost(norm, reference, candidate, i, j) >= (i - j) as real
    ensures PrefixCost(norm, reference, candidate, i, j) >= (j - i) as real
    ensures PrefixCost(norm, reference, candidate, i, j) >= 0.0
    decreases i + j
  {
    hide PrefixCost, SubstitutionCost;
    Cell(norm, reference, candidate, i, j);
    if i > 0 && j > 0 {
      SubstitutionCostBounds(norm, reference[i - 1], candidate[j - 1]);
      CostBounds(norm, reference, candidate, i, j - 1);
      CostBounds(norm, reference, candidate, i - 1, j);
      CostBounds(norm, reference, candidate, i - 1, j - 1);
    }
  }

  ghost predicate SameOutline(norm: Normaliser, reference: seq<Heading>, candidate: seq<Option<Heading>>, i: nat,
                              j: nat)
    requires i <= |reference| && j <= |candidate|
  {
    i == j && forall k :: 0 <= k < i ==> SameHeading(norm, reference[k], candidate[k])
  }

  lemma {:induction false} ZeroCostIffSame(norm: Normaliser, reference: seq<Heading>, candidate: seq<Option<Heading>>,
                                           i: nat, j: nat)
    requires i <= |reference| && j <= |candidate|
    ensures PrefixCost(norm, reference, candidate, i, j) == 0.0 <==> SameOutline(norm, reference, candidate, i, j)
    decreases i + j
  {
    hide PrefixCost, SubstitutionCost, SameHeading;
    Cell(norm, reference, candidate, i, j);
    if i > 0 && j > 0 {
      SubstitutionCostBounds(norm, reference[i - 1], candidate[j - 1]);
      CostBounds(norm, reference, candidate, i, j - 1);
      CostBounds(norm, reference, candidate, i - 1, j);
      CostBounds(norm, reference, candidate, i - 1, j - 1);
      ZeroCostIffSame(norm, reference, candidate, i - 1, j - 1);
    }
  }

  function Values(outline: seq<Option<Heading>>): (values: seq<Heading>)
    requires forall h :: h in outline ==> h.Some?
    ensures |values| == |outline|
  {
    seq(|outline|, k requires 0 <= k < |outline| => assert outline[k] in outline; outline[k].value)
  }

  /** `None` when the reference outline is empty or holds an unusable heading. */
  function HeadingTreeScore(norm: Normaliser, reference: seq<RawHeading>, candidate: seq<RawHeading>): Option<real> {
    var expected, actual := Outline(norm, reference), Outline(norm, candidate);
    if expected == [] || None in expected then None
    else
      var distance := PrefixCost(norm, Values(expected), actual, |expected|, |actual|);
      var denominator := EditDistance.Max(EditDistance.Max(|expected|, |actual|), 1);
      var raw := 1.0 - distance / denominator as real;
      Some(if raw <= 0.0 then 0.0 else raw)
  }

  /** Both headings are usable, with the same level and the same label up to normalisation. */
  ghost predicate Agree(norm: Normaliser, left: RawHeading, right: RawHeading) {
    && Canonical(norm, left).Some?
    && SameHeading(norm, Canonical(norm, left).value, Canonical(norm, right))
  }

  lemma ScoreMeaning(norm: Normaliser, reference: seq<RawHeading>, candidate: seq<RawHeading>)
    ensures HeadingTreeScore(norm, reference, candidate).None? <==>
      reference == [] || exists k :: 0 <= k < |reference| && Canonical(norm, reference[k]).None?
    ensures var score := HeadingTreeScore(norm, reference, candidate);
      score.Some? ==>
      && 0.0 <= score.value <= 1.0
      && (score.value == 1.0 <==>
          |reference| == |candidate| && forall k :: 0 <= k < |reference| ==> Agree(norm, reference[k], candidate[k]))
  {
    hide PrefixCost, SubstitutionCost, SameHeading, Canonical;
    var expected, actual := Outline(norm, reference), Outline(norm, candidate);
    if expected != [] && None !in expected {
      var values := Values(expected);
      CostBounds(norm, values, actual, |expected|, |actual|);
      ZeroCostIffSame(norm, values, actual, |expected|, |actual|);
      Reals.RatioBounds(PrefixCost(norm, values, actual, |expected|, |actual|),
                        EditDistance.Max(EditDistance.Max(|expected|, |actual|), 1) as real);
      forall k | 0 <= k < |reference| && |reference| == |candidate|
        ensures Agree(norm, reference[k], candidate[k]) <==> SameHeading(norm, values[k], actual[k])
      {
        assert expected[k] in expected;
      }
    }
  }

  /** What the score lacks is the cost of the cheapest alignment as a share of the longer outline. */
  lemma ScoreScale(norm: Normaliser, reference: seq<RawHeading>, candidate: seq<RawHeading>, values: seq<Heading>,
                   longest: nat)
    requires reference != [] && |values| == |reference|
    requires forall k :: 0 <= k < |reference| ==> Canonical(norm, reference[k]) == Some(values[k])
    requires longest == if |reference| >= |candidate| then |reference| else |candidate|
    ensures HeadingTreeScore(norm, reference, candidate).Some?
    ensures Reals.PartOf(1.0 - HeadingTreeScore(norm, reference, candidate).value, longest)
         == PrefixCost(norm, values, Outline(norm, candidate), |reference|, |candidate|)
  {
    hide PrefixCost, SubstitutionCost, Canonical, Reals.PartOf;
    var expected, actual := Outline(norm, reference), Outline(norm, candidate);
    assert forall k :: 0 <= k < |expected| ==> expected[k] == Some(values[k]);
    assert Values(expected) == values;
    var cost := PrefixCost(norm, values, actual, |expected|, |actual|);
    CostBounds(norm, values, actual, |expected|, |actual|);
    ShareOfCost(cost, longest);
  }

  lemma ShareOfCost(cost: real, longest: nat)
    requires 0.0 <= cost <= longest as real && longest > 0
    ensures var raw := 1.0 - cost / longest as real; raw >= 0.0 && Reals.PartOf(1.0 - raw, longest) == cost
  {
    Reals.RatioBounds(cost, longest as real);
    Reals.PartOfRatio(cost, longest);
  }
}
