/**
 * The unit-cost edit distance of benchmark/evaluators: the two-row dynamic
 * program computes the least number of single-element edits, and that number
 * is a metric on sequences.
 */
module EditDistance {
  import opened Reals

  function Least(x: int, y: int, z: int): int {
    if x <= y && x <= z then x else if y <= z then y else z
  }

  function Max(x: int, y: int): int {
    if x <= y then y else x
  }

  // The independent reference: rewriting one element at a time.

  /** `b` is `a` with one element inserted at `k`. */
  ghost predicate InsertsAt<T>(a: seq<T>, b: seq<T>, k: nat) {
    k <= |a| && |b| == |a| + 1 && a[..k] == b[..k] && a[k..] == b[k + 1..]
  }

  /** `b` is `a` with the element at `k` replaced. */
  ghost predicate SubstitutesAt<T>(a: seq<T>, b: seq<T>, k: nat) {
    k < |a| && |b| == |a| && a[..k] == b[..k] && a[k + 1..] == b[k + 1..]
  }

  ghost predicate OneEdit<T>(a: seq<T>, b: seq<T>) {
    || (exists k: nat :: InsertsAt(a, b, k))
    || (exists k: nat :: InsertsAt(b, a, k))
    || (exists k: nat :: SubstitutesAt(a, b, k))
  }

  /** A run of single edits that turns `a` into `b`. */
  ghost predicate EditRun<T>(run: seq<seq<T>>, a: seq<T>, b: seq<T>) {
    && run != []
    && run[0] == a
    && run[|run| - 1] == b
    && forall i :: 0 <= i < |run| - 1 ==> OneEdit(run[i], run[i + 1])
  }

  // The recurrence of the dynamic program, over the first `i` and `j` elements.

  function PrefixDistance<T(==)>(a: seq<T>, b: seq<T>, i: nat, j: nat): nat
    requires i <= |a| && j <= |b|
  {
    if i == 0 then j
    else if j == 0 then i
    else
      Least(PrefixDistance(a, b, i, j - 1) + 1, PrefixDistance(a, b, i - 1, j) + 1,
            PrefixDistance(a, b, i - 1, j - 1) + Differs(a[i - 1], b[j - 1]))
  }

  function Differs<T(==)>(x: T, y: T): nat {
    if x != y then 1 else 0
  }

  /** One cell of the table from its three neighbours. */
  lemma Cell<T>(a: seq<T>, b: seq<T>, i: nat, j: nat)
    requires i <= |a| && j <= |b|
    ensures i == 0 ==> PrefixDistance(a, b, i, j) == j
    ensures j == 0 ==> PrefixDistance(a, b, i, j) == i
    ensures i > 0 && j > 0 ==>
      PrefixDistance(a, b, i, j)
      == Least(PrefixDistance(a, b, i, j - 1) + 1, PrefixDistance(a, b, i - 1, j) + 1,
               PrefixDistance(a, b, i - 1, j - 1) + Differs(a[i - 1], b[j - 1]))
  {
  }

  function Distance<T(==)>(a: seq<T>, b: seq<T>): nat {
    PrefixDistance(a, b, |a|, |b|)
  }

  method Levenshtein<T(==)>(reference: seq<T>, candidate: seq<T>) returns (distance: nat)
    ensures distance == Distance(reference, candidate)
  {
    hide PrefixDistance;
    var a, b := reference, candidate;
    if |reference| < |candidate| {
      a, b := candidate, reference;
    }
    Symmetric(reference, candidate, |reference|, |candidate|);
    var previous: seq<nat> := seq(|b| + 1, i => i);
    forall j | 0 <= j <= |b| ensures PrefixDistance(a, b, 0, j) == j {
      Cell(a, b, 0, j);
    }
    for row := 0 to |a|
      invariant |previous| == |b| + 1
      invariant forall j :: 0 <= j <= |b| ==> previous[j] == PrefixDistance(a, b, row, j)
    {
      var current: seq<nat> := [row + 1];
      Cell(a, b, row + 1, 0);
      for column := 0 to |b|
        invariant |current| == column + 1
        invariant forall j :: 0 <= j <= column ==> current[j] == PrefixDistance(a, b, row + 1, j)
      {
        Cell(a, b, row + 1, column + 1);
        current := current + [Least(current[|current| - 1] + 1, previous[column + 1] + 1,
                                    previous[column] + Differs(a[row], b[column]))];
      }
      previous := current;
    }
    distance := previous[|previous| - 1];
  }

  lemma {:induction false} Symmetric<T>(a: seq<T>, b: seq<T>, i: nat, j: nat)
    requires i <= |a| && j <= |b|
    ensures PrefixDistance(a, b, i, j) == PrefixDistance(b, a, j, i)
  {
    hide PrefixDistance;
    Cell(a, b, i, j);
    Cell(b, a, j, i);
    if i > 0 && j > 0 {
      Symmetric(a, b, i, j - 1);
      Symmetric(a, b, i - 1, j);
      Symmetric(a, b, i - 1, j - 1);
    }
  }

  /** Between the difference of the lengths and the longer length. */
  lemma {:induction false} LengthBounds<T>(a: seq<T>, b: seq<T>, i: nat, j: nat)
    requires i <= |a| && j <= |b|
    ensures i - j <= PrefixDistance(a, b, i, j) && j - i <= PrefixDistance(a, b, i, j)
    ensures PrefixDistance(a, b, i, j) <= Max(i, j)
  {
    hide PrefixDistance;
    Cell(a, b, i, j);
    if i > 0 && j > 0 {
      LengthBounds(a, b, i, j - 1);
      LengthBounds(a, b, i - 1, j);
      LengthBounds(a, b, i - 1, j - 1);
    }
  }

  lemma {:induction false} ZeroOnPrefixes<T>(a: seq<T>, b: seq<T>, i: nat, j: nat)
    requires i <= |a| && j <= |b|
    ensures PrefixDistance(a, b, i, j) == 0 <==> a[..i] == b[..j]
  {
    hide PrefixDistance;
    Cell(a, b, i, j);
    LengthBounds(a, b, i, j);
    if i > 0 && j > 0 {
      ZeroOnPrefixes(a, b, i - 1, j - 1);
      assert a[..i] == a[..i - 1] + [a[i - 1]] && b[..j] == b[..j - 1] + [b[j - 1]];
    }
  }

  lemma ZeroIffEqual<T>(a: seq<T>, b: seq<T>)
    ensures Distance(a, b) == 0 <==> a == b
  {
    ZeroOnPrefixes(a, b, |a|, |b|);
    assert a[..|a|] == a && b[..|b|] == b;
  }

  lemma {:induction false} TriangleOnPrefixes<T>(a: seq<T>, b: seq<T>, c: seq<T>, i: nat, j: nat, k: nat)
    requires i <= |a| && j <= |b| && k <= |c|
    ensures PrefixDistance(a, c, i, k) <= PrefixDistance(a, b, i, j) + PrefixDistance(b, c, j, k)
    decreases i + j + k
  {
    hide PrefixDistance;
    Cell(a, b, i, j);
    Cell(b, c, j, k);
    Cell(a, c, i, k);
    LengthBounds(a, b, i, j);
    LengthBounds(b, c, j, k);
    LengthBounds(a, c, i, k);
    if i > 0 && j > 0 && k > 0 {
      TriangleOnPrefixes(a, b, c, i - 1, j, k);
      TriangleOnPrefixes(a, b, c, i, j, k - 1);
      TriangleOnPrefixes(a, b, c, i, j - 1, k);
      TriangleOnPrefixes(a, b, c, i, j - 1, k - 1);
      TriangleOnPrefixes(a, b, c, i - 1, j - 1, k);
      TriangleOnPrefixes(a, b, c, i - 1, j - 1, k - 1);
    }
  }

  /** The distance is a metric. */
  lemma DistanceIsMetric<T>(a: seq<T>, b: seq<T>, c: seq<T>)
    ensures Distance(a, b) == 0 <==> a == b
    ensures Distance(a, b) == Distance(b, a)
    ensures Distance(a, c) <= Distance(a, b) + Distance(b, c)
    ensures |a| - |b| <= Distance(a, b) && |b| - |a| <= Distance(a, b) <= Max(|a|, |b|)
  {
    ZeroIffEqual(a, b);
    Symmetric(a, b, |a|, |b|);
    TriangleOnPrefixes(a, b, c, |a|, |b|, |c|);
    LengthBounds(a, b, |a|, |b|);
  }

  // The recurrence counts the shortest run of single edits.

  /** Only the prefixes matter. */
  lemma {:induction false} SamePrefixes<T>(a: seq<T>, a': seq<T>, b: seq<T>, b': seq<T>, i: nat, j: nat)
    requires i <= |a| && i <= |a'| && j <= |b| && j <= |b'|
    requires forall k :: 0 <= k < i ==> a[k] == a'[k]
    requires forall k :: 0 <= k < j ==> b[k] == b'[k]
    ensures PrefixDistance(a, b, i, j) == PrefixDistance(a', b', i, j)
  {
    hide PrefixDistance;
    Cell(a, b, i, j);
    Cell(a', b', i, j);
    if i > 0 && j > 0 {
      SamePrefixes(a, a', b, b', i, j - 1);
      SamePrefixes(a, a', b, b', i - 1, j);
      SamePrefixes(a, a', b, b', i - 1, j - 1);
    }
  }

  lemma {:induction false} CommonRun<T>(x: seq<T>, y: seq<T>, i: nat, j: nat, n: nat)
    requires i + n <= |x| && j + n <= |y|
    requires x[i..i + n] == y[j..j + n]
    ensures PrefixDistance(x, y, i + n, j + n) <= PrefixDistance(x, y, i, j)
  {
    hide PrefixDistance;
    if n > 0 {
      assert x[i..i + n][..n - 1] == x[i..i + n - 1] && y[j..j + n][..n - 1] == y[j..j + n - 1];
      assert x[i..i + n][n - 1] == x[i + n - 1] && y[j..j + n][n - 1] == y[j + n - 1];
      CommonRun(x, y, i, j, n - 1);
      Cell(x, y, i + n, j + n);
    }
  }

  lemma CommonSuffix<T>(a: seq<T>, b: seq<T>, suffix: seq<T>)
    ensures Distance(a + suffix, b + suffix) <= Distance(a, b)
  {
    hide PrefixDistance;
    var x, y := a + suffix, b + suffix;
    CommonRun(x, y, |a|, |b|, |suffix|);
    SamePrefixes(a, x, b, y, |a|, |b|);
  }

  lemma InsertLast<T>(p: seq<T>, x: T)
    ensures Distance(p, p + [x]) <= 1
  {
    var q := p + [x];
    hide PrefixDistance;
    ZeroIffEqual(p, p);
    SamePrefixes(p, p, p, q, |p|, |p|);
    Cell(p, q, |p|, |q|);
  }

  lemma SubstituteLast<T>(p: seq<T>, x: T, y: T)
    ensures Distance(p + [x], p + [y]) <= 1
  {
    var q, r := p + [x], p + [y];
    hide PrefixDistance;
    ZeroIffEqual(p, p);
    SamePrefixes(p, q, p, r, |p|, |p|);
    Cell(q, r, |q|, |r|);
  }

  lemma InsertionCostsOne<T>(a: seq<T>, b: seq<T>, k: nat)
    requires InsertsAt(a, b, k)
    ensures Distance(a, b) <= 1
  {
    var p := a[..k];
    InsertLast(p, b[k]);
    CommonSuffix(p, p + [b[k]], a[k..]);
    assert p + a[k..] == a && p + [b[k]] + a[k..] == b;
  }

  lemma SubstitutionCostsOne<T>(a: seq<T>, b: seq<T>, k: nat)
    requires SubstitutesAt(a, b, k)
    ensures Distance(a, b) <= 1
  {
    var p := a[..k];
    var x, y := p + [a[k]], p + [b[k]];
    SubstituteLast(p, a[k], b[k]);
    CommonSuffix(x, y, a[k + 1..]);
    assert x + a[k + 1..] == a && y + a[k + 1..] == b;
  }

  lemma OneEditCostsOne<T>(a: seq<T>, b: seq<T>)
    requires OneEdit(a, b)
    ensures Distance(a, b) <= 1
  {
    Symmetric(a, b, |a|, |b|);
    if k: nat :| InsertsAt(a, b, k) {
      InsertionCostsOne(a, b, k);
    } else if k: nat :| InsertsAt(b, a, k) {
      InsertionCostsOne(b, a, k);
    } else {
      var k: nat :| SubstitutesAt(a, b, k);
      SubstitutionCostsOne(a, b, k);
    }
  }

  lemma {:induction false} RunCostsItsLength<T>(run: seq<seq<T>>, a: seq<T>, b: seq<T>)
    requires EditRun(run, a, b)
    ensures Distance(a, b) <= |run| - 1
    decreases |run|
  {
    if |run| == 1 {
      ZeroIffEqual(a, b);
    } else {
      RunCostsItsLength(run[1..], run[1], b);
      OneEditCostsOne(a, run[1]);
      TriangleOnPrefixes(a, run[1], b, |a|, |run[1]|, |b|);
    }
  }

  /** Edits carry over when the same element is put behind both sides. */
  lemma OneEditBefore<T>(a: seq<T>, b: seq<T>, x: T)
    requires OneEdit(a, b)
    ensures OneEdit(a + [x], b + [x])
  {
    if k: nat :| InsertsAt(a, b, k) {
      assert (b + [x])[k + 1..] == b[k + 1..] + [x];
      assert InsertsAt(a + [x], b + [x], k);
    } else if k: nat :| InsertsAt(b, a, k) {
      assert (a + [x])[k + 1..] == a[k + 1..] + [x];
      assert InsertsAt(b + [x], a + [x], k);
    } else {
      var k: nat :| SubstitutesAt(a, b, k);
      assert (a + [x])[k + 1..] == a[k + 1..] + [x] && (b + [x])[k + 1..] == b[k + 1..] + [x];
      assert SubstitutesAt(a + [x], b + [x], k);
    }
  }

  lemma ExtendRun<T>(run: seq<seq<T>>, a: seq<T>, b: seq<T>, c: seq<T>)
    requires EditRun(run, a, b) && OneEdit(b, c)
    ensures EditRun(run + [c], a, c)
  {
  }

  lemma PrependRun<T>(c: seq<T>, run: seq<seq<T>>, a: seq<T>, b: seq<T>)
    requires EditRun(run, a, b) && OneEdit(c, a)
    ensures EditRun([c] + run, c, b)
  {
    var longer := [c] + run;
    forall i | 0 <= i < |longer| - 1 ensures OneEdit(longer[i], longer[i + 1]) {
      assert i > 0 ==> longer[i] == run[i - 1] && longer[i + 1] == run[i];
    }
  }

  lemma LastIsOneEdit<T>(a: seq<T>, i: nat)
    requires i < |a|
    ensures OneEdit(a[..i + 1], a[..i]) && OneEdit(a[..i], a[..i + 1])
  {
    assert InsertsAt(a[..i], a[..i + 1], i);
  }

  /** A run as short as the recurrence says. */
  lemma {:induction false} ShortestRun<T>(a: seq<T>, b: seq<T>, i: nat, j: nat) returns (run: seq<seq<T>>)
    requires i <= |a| && j <= |b|
    ensures EditRun(run, a[..i], b[..j]) && |run| - 1 == PrefixDistance(a, b, i, j)
  {
    hide PrefixDistance;
    Cell(a, b, i, j);
    if i == 0 && j == 0 {
      run := [[]];
    } else if j == 0 || (i > 0 && PrefixDistance(a, b, i, j) == PrefixDistance(a, b, i - 1, j) + 1) {
      run := ShortestRun(a, b, i - 1, j);
      Cell(a, b, i - 1, j);
      LastIsOneEdit(a, i - 1);
      PrependRun(a[..i], run, a[..i - 1], b[..j]);
      run := [a[..i]] + run;
    } else if i == 0 || PrefixDistance(a, b, i, j) == PrefixDistance(a, b, i, j - 1) + 1 {
      run := ShortestRun(a, b, i, j - 1);
      Cell(a, b, i, j - 1);
      LastIsOneEdit(b, j - 1);
      ExtendRun(run, a[..i], b[..j - 1], b[..j]);
      run := run + [b[..j]];
    } else {
      var shorter := ShortestRun(a, b, i - 1, j - 1);
      run := AppendToRun(shorter, a[..i - 1], b[..j - 1], a[i - 1]);
      assert a[..i] == a[..i - 1] + [a[i - 1]] && b[..j] == b[..j - 1] + [b[j - 1]];
      if a[i - 1] != b[j - 1] {
        var last := b[..j - 1] + [a[i - 1]];
        assert SubstitutesAt(last, b[..j], j - 1);
        ExtendRun(run, a[..i], last, b[..j]);
        run := run + [b[..j]];
      }
    }
  }

  lemma AppendToRun<T>(run: seq<seq<T>>, a: seq<T>, b: seq<T>, x: T) returns (longer: seq<seq<T>>)
    requires EditRun(run, a, b)
    ensures EditRun(longer, a + [x], b + [x]) && |longer| == |run|
  {
    longer := seq(|run|, i requires 0 <= i < |run| => run[i] + [x]);
    forall i | 0 <= i < |longer| - 1 ensures OneEdit(longer[i], longer[i + 1]) {
      OneEditBefore(run[i], run[i + 1], x);
    }
  }

  /** The distance is the length of the shortest run of single edits. */
  lemma DistanceIsMinimal<T>(a: seq<T>, b: seq<T>)
    ensures exists run :: EditRun(run, a, b) && |run| - 1 == Distance(a, b)
    ensures forall run :: EditRun(run, a, b) ==> Distance(a, b) <= |run| - 1
  {
    var run := ShortestRun(a, b, |a|, |b|);
    assert a[..|a|] == a && b[..|b|] == b;
    forall run | EditRun(run, a, b) ensures Distance(a, b) <= |run| - 1 {
      RunCostsItsLength(run, a, b);
    }
  }

  // The rates built on the distance.  `nfc` stands for the text normalisation.

  function ErrorRate<T(==)>(reference: seq<T>, candidate: seq<T>): real {
    if reference == [] then if candidate == [] then 0.0 else 1.0
    else Distance(reference, candidate) as real / |reference| as real
  }

  lemma ErrorRateMeaning<T>(reference: seq<T>, candidate: seq<T>)
    ensures ErrorRate(reference, candidate) >= 0.0
    ensures ErrorRate(reference, candidate) == 0.0 <==> reference == candidate
    ensures |candidate| <= |reference| ==> ErrorRate(reference, candidate) <= 1.0
  {
    ZeroIffEqual(reference, candidate);
    LengthBounds(reference, candidate, |reference|, |candidate|);
    if reference != [] {
      RatioBounds(Distance(reference, candidate) as real, |reference| as real);
    }
  }

  /** The error rate is the number of edits for each element of the reference. */
  lemma ErrorRateScale<T>(reference: seq<T>, candidate: seq<T>)
    ensures reference != [] ==>
      PartOf(ErrorRate(reference, candidate), |reference|) == Distance(reference, candidate) as real
    ensures reference == [] ==> ErrorRate(reference, candidate) == if candidate == [] then 0.0 else 1.0
  {
    hide Distance;
    if reference != [] {
      PartOfRatio(Distance(reference, candidate) as real, |reference|);
    }
  }

  function Similarity<T(==)>(left: seq<T>, right: seq<T>): real {
    var denominator := Max(Max(|left|, |right|), 1);
    var raw := 1.0 - Distance(left, right) as real / denominator as real;
    if raw <= 0.0 then 0.0 else raw
  }

  function NormalizedEditSimilarity(nfc: string -> string, reference: string, candidate: string): real {
    Similarity(nfc(reference), nfc(candidate))
  }

  /** The clamp at zero never changes the value, and only equal sequences score one. */
  lemma SimilarityMeaning<T>(left: seq<T>, right: seq<T>)
    ensures Similarity(left, right)
         == 1.0 - Distance(left, right) as real / Max(Max(|left|, |right|), 1) as real
    ensures 0.0 <= Similarity(left, right) <= 1.0
    ensures Similarity(left, right) == 1.0 <==> left == right
    ensures Similarity(left, right) == Similarity(right, left)
  {
    LengthBounds(left, right, |left|, |right|);
    ZeroIffEqual(left, right);
    Symmetric(left, right, |left|, |right|);
    RatioBounds(Distance(left, right) as real, Max(Max(|left|, |right|), 1) as real);
  }

  /** What the similarity lacks is the number of edits as a share of the longer side. */
  lemma SimilarityScale<T>(left: seq<T>, right: seq<T>, longest: nat)
    requires longest == if |left| >= |right| then |left| else |right|
    ensures longest > 0 ==> PartOf(1.0 - Similarity(left, right), longest) == Distance(left, right) as real
  {
    SimilarityMeaning(left, right);
    hide Distance, Similarity;
    if longest > 0 {
      PartOfRatio(Distance(left, right) as real, longest);
    }
  }
}
