/**
 * Block detection: intersection over union of page boxes, and the greedy
 * one-to-one matching built on it.
 */
module BoxMatching {
  import opened Reals
  import opened Sequences
  import opened Sorting

  datatype Box = Box(left: real, top: real, right: real, bottom: real) {
    predicate IsValid() {
      0.0 <= left < right <= 1000.0 && 0.0 <= top < bottom <= 1000.0
    }

    function Area(): real {
      Product(right - left, bottom - top)
    }
  }

  /** A layout block as annotated; a missing or ill-typed page or box is `None`. */
  datatype Block = Block(page: Option<int>, bbox: Option<seq<real>>)

  datatype Geometry = Geometry(page: int, box: Box)

  function ValidBox(bbox: Option<seq<real>>): (box: Option<Box>)
    ensures box.Some? ==> box.value.IsValid()
  {
    if bbox.None? || |bbox.value| != 4 then None
    else
      var box := Box(bbox.value[0], bbox.value[1], bbox.value[2], bbox.value[3]);
      if box.IsValid() then Some(box) else None
  }

  /** Page and box of a block; four corners in order, of positive width and height, within a thousand. */
  function BlockGeometry(block: Block): (geometry: Option<Geometry>)
    ensures geometry.Some? ==> geometry.value.box.IsValid()
    ensures geometry.Some? <==>
      && block.page.Some? && block.bbox.Some? && |block.bbox.value| == 4
      && (forall k :: 0 <= k < 4 ==> 0.0 <= block.bbox.value[k] <= 1000.0)
      && block.bbox.value[0] < block.bbox.value[2] && block.bbox.value[1] < block.bbox.value[3]
    ensures geometry.Some? ==>
      var Geometry(page, box) := geometry.value;
      page == block.page.value && [box.left, box.top, box.right, box.bottom] == block.bbox.value
  {
    var box := ValidBox(block.bbox);
    if block.page.None? || box.None? then None else Some(Geometry(block.page.value, box.value))
  }

  // Intersection over union.

  function Product(width: real, height: real): real {
    width * height
  }

  function Overlap(a: real, b: real, c: real, d: real): real {
    Max(0.0, Min(b, d) - Max(a, c))
  }

  function Intersection(p: Box, q: Box): real {
    Product(Overlap(p.left, p.right, q.left, q.right), Overlap(p.top, p.bottom, q.top, q.bottom))
  }

  function Iou(p: Box, q: Box): real {
    var union := p.Area() + q.Area() - Intersection(p, q);
    if union == 0.0 then 0.0 else Intersection(p, q) / union
  }

  lemma ProductBounds(w: real, h: real, width: real, height: real)
    requires 0.0 <= w <= width && 0.0 <= h <= height && 0.0 < width && 0.0 < height
    ensures 0.0 <= Product(w, h) <= Product(width, height) && 0.0 < Product(width, height)
    ensures Product(w, h) == Product(width, height) <==> w == width && h == height
  {
    assert w * h <= w * height <= width * height;
    if w < width {
      assert w * height < width * height;
    } else if h < height {
      assert width * h < width * height;
    }
  }

  lemma OverlapBounds(a: real, b: real, c: real, d: real)
    requires a < b && c < d
    ensures 0.0 <= Overlap(a, b, c, d) <= b - a && Overlap(a, b, c, d) <= d - c
    ensures Overlap(a, b, c, d) == b - a && Overlap(a, b, c, d) == d - c <==> a == c && b == d
    ensures Overlap(a, b, c, d) == Overlap(c, d, a, b)
  {
  }

  lemma IntersectionBounds(p: Box, q: Box)
    requires p.IsValid() && q.IsValid()
    ensures 0.0 <= Intersection(p, q) <= p.Area() && Intersection(p, q) <= q.Area()
    ensures 0.0 < p.Area() && 0.0 < q.Area()
    ensures Intersection(p, q) == p.Area() && Intersection(p, q) == q.Area() ==> p == q
    ensures Intersection(p, q) == Intersection(q, p)
    ensures p == q ==> Intersection(p, q) == p.Area()
  {
    hide Overlap, Product;
    var w, h := Overlap(p.left, p.right, q.left, q.right), Overlap(p.top, p.bottom, q.top, q.bottom);
    OverlapBounds(p.left, p.right, q.left, q.right);
    OverlapBounds(p.top, p.bottom, q.top, q.bottom);
    ProductBounds(w, h, p.right - p.left, p.bottom - p.top);
    ProductBounds(w, h, q.right - q.left, q.bottom - q.top);
  }

  /** Between zero and one, symmetric, and one exactly on equal boxes. */
  lemma IouMeaning(p: Box, q: Box)
    requires p.IsValid() && q.IsValid()
    ensures 0.0 <= Iou(p, q) <= 1.0
    ensures Iou(p, q) == Iou(q, p)
    ensures Iou(p, q) == 1.0 <==> p == q
  {
    hide Intersection, Box.Area;
    IntersectionBounds(p, q);
    RatioBounds(Intersection(p, q), p.Area() + q.Area() - Intersection(p, q));
  }

  // The greedy matching.

  datatype Match = Match(expected: nat, actual: nat, iou: real)

  const THRESHOLD := 0.5

  /** A pair of usable blocks of the same page that overlap enough. */
  ghost predicate IsCandidate(expected: seq<Block>, actual: seq<Block>, m: Match) {
    && m.expected < |expected| && m.actual < |actual|
    && SharePage(expected[m.expected], actual[m.actual])
    && m.iou == Iou(BlockGeometry(expected[m.expected]).value.box, BlockGeometry(actual[m.actual]).value.box)
    && m.iou >= THRESHOLD
  }

  predicate SharePage(expected: Block, actual: Block) {
    var e, a := BlockGeometry(expected), BlockGeometry(actual);
    e.Some? && a.Some? && e.value.page == a.value.page
  }

  /** Higher overlap first, ties by position. */
  predicate Before(m: Match, n: Match) {
    || m.iou > n.iou
    || (m.iou == n.iou && (m.expected < n.expected || (m.expected == n.expected && m.actual <= n.actual)))
  }

  predicate Conflict(m: Match, n: Match) {
    m.expected == n.expected || m.actual == n.actual
  }

  ghost predicate OneToOne(matches: seq<Match>) {
    forall i, j :: 0 <= i < j < |matches| ==> !Conflict(matches[i], matches[j])
  }

  /** Some chosen pair shares a block with `m` and overlaps at least as much. */
  ghost predicate Covered(matches: seq<Match>, m: Match) {
    exists i :: 0 <= i < |matches| && Conflict(matches[i], m) && matches[i].iou >= m.iou
  }

  /** A chosen pair takes a block of `m` and overlaps more, or as much at an earlier expected or then actual block. */
  ghost predicate Lost(matches: seq<Match>, m: Match) {
    exists i :: 0 <= i < |matches| && Conflict(matches[i], m) && Outranks(matches[i], m)
  }

  predicate Outranks(m: Match, n: Match) {
    if m.iou != n.iou then m.iou > n.iou
    else if m.expected != n.expected then m.expected < n.expected
    else m.actual < n.actual
  }

  ghost predicate Decided(matches: seq<Match>, m: Match) {
    m in matches || Lost(matches, m)
  }

  /** Before one another, two different pairs are outranked. */
  lemma BeforeOutranks(m: Match, n: Match)
    requires Before(m, n)
    ensures m == n || Outranks(m, n)
  {
  }

  lemma StepDecides(sorted: seq<Match>, k: nat, matches: seq<Match>)
    requires k < |sorted| && SortedBy(Before, sorted)
    requires forall m :: m in matches ==> exists i :: 0 <= i < k && sorted[i] == m
    ensures Decided(if Free(matches, sorted[k]) then matches + [sorted[k]] else matches, sorted[k])
    ensures forall n :: Decided(matches, n) ==> Decided(matches + [sorted[k]], n)
  {
    var m := sorted[k];
    var longer := matches + [m];
    forall n | Decided(matches, n) ensures Decided(longer, n) {
      if n !in matches {
        var i :| 0 <= i < |matches| && Conflict(matches[i], n) && Outranks(matches[i], n);
        assert longer[i] == matches[i];
      }
    }
    if !Free(matches, m) {
      var i :| 0 <= i < |matches| && Conflict(matches[i], m);
      assert matches[i] in matches;
      BeforeOutranks(matches[i], m);
      hide Outranks;
    }
  }

  method Candidates(expected: seq<Block>, actual: seq<Block>) returns (candidates: seq<Match>)
    ensures forall m :: m in candidates <==> IsCandidate(expected, actual, m)
  {
    hide Iou, BlockGeometry;
    candidates := [];
    for e := 0 to |expected|
      invariant forall m :: m in candidates <==> IsCandidate(expected, actual, m) && m.expected < e
    {
      var expectedGeometry := BlockGeometry(expected[e]);
      if expectedGeometry.Some? {
        for a := 0 to |actual|
          invariant forall m :: m in candidates <==>
            IsCandidate(expected, actual, m) && (m.expected < e || (m.expected == e && m.actual < a))
        {
          var actualGeometry := BlockGeometry(actual[a]);
          if actualGeometry.Some? && actualGeometry.value.page == expectedGeometry.value.page {
            var iou := Iou(expectedGeometry.value.box, actualGeometry.value.box);
            if iou >= THRESHOLD {
              candidates := candidates + [Match(e, a, iou)];
            }
          }
        }
      }
    }
  }

  ghost predicate AtLeastFrom(m: Match, sorted: seq<Match>, k: nat)
    requires k <= |sorted|
  {
    forall j :: k <= j < |sorted| ==> m.iou >= sorted[j].iou
  }

  predicate Free(matches: seq<Match>, m: Match) {
    && m.expected !in (set n | n in matches :: n.expected)
    && m.actual !in (set n | n in matches :: n.actual)
  }

  /** One step of the greedy loop keeps the matching one-to-one and covers the next candidate. */
  lemma StepCovers(sorted: seq<Match>, k: nat, matches: seq<Match>)
    requires k < |sorted| && SortedBy(Before, sorted) && OneToOne(matches)
    requires forall m :: m in matches ==> AtLeastFrom(m, sorted, k)
    ensures AtLeastFrom(sorted[k], sorted, k + 1)
    ensures Free(matches, sorted[k]) ==> OneToOne(matches + [sorted[k]]) && Covered(matches + [sorted[k]], sorted[k])
    ensures !Free(matches, sorted[k]) ==> Covered(matches, sorted[k])
    ensures forall n :: Covered(matches, n) ==> Covered(matches + [sorted[k]], n)
  {
    var m := sorted[k];
    var longer := matches + [m];
    forall n | Covered(matches, n) ensures Covered(longer, n) {
      var i :| 0 <= i < |matches| && Conflict(matches[i], n) && matches[i].iou >= n.iou;
      assert longer[i] == matches[i];
    }
    if Free(matches, m) {
      forall i | 0 <= i < |matches| ensures !Conflict(matches[i], m) {
        assert matches[i] in matches;
      }
      assert longer[|matches|] == m;
    } else {
      var i :| 0 <= i < |matches| && Conflict(matches[i], m);
      assert AtLeastFrom(matches[i], sorted, k);
    }
  }

  /** Accepts candidates in order unless one of their blocks is taken. */
  method Select(sorted: seq<Match>) returns (matches: seq<Match>)
    requires SortedBy(Before, sorted)
    ensures forall m :: m in matches ==> m in sorted
    ensures OneToOne(matches)
    ensures forall j :: 0 <= j < |sorted| ==> Covered(matches, sorted[j]) && Decided(matches, sorted[j])
  {
    assert OneToOne([]);
    hide Covered, OneToOne, SortedBy, AtLeastFrom, Decided;
    var matchedExpected: set<nat>, matchedActual: set<nat> := {}, {};
    matches := [];
    for k := 0 to |sorted|
      invariant matchedExpected == (set m | m in matches :: m.expected)
      invariant matchedActual == (set m | m in matches :: m.actual)
      invariant forall m :: m in matches ==> exists i :: 0 <= i < k && sorted[i] == m
      invariant OneToOne(matches)
      invariant forall m :: m in matches ==> AtLeastFrom(m, sorted, k)
      invariant forall j :: 0 <= j < k ==> Covered(matches, sorted[j]) && Decided(matches, sorted[j])
    {
      var m := sorted[k];
      StepDecides(sorted, k, matches);
      StepCovers(sorted, k, matches);
      AtLeastLater(sorted, k, matches);
      if m.expected !in matchedExpected && m.actual !in matchedActual {
        matchedExpected := matchedExpected + {m.expected};
        matchedActual := matchedActual + {m.actual};
        matches := matches + [m];
      }
    }
  }

  lemma AtLeastLater(sorted: seq<Match>, k: nat, matches: seq<Match>)
    requires k < |sorted| && forall m :: m in matches ==> AtLeastFrom(m, sorted, k)
    ensures forall m :: m in matches ==> AtLeastFrom(m, sorted, k + 1)
  {
  }

  /** A one-to-one matching of candidates in which every other candidate lost to a pair of at least its overlap. */
  ghost predicate IsGreedy(expected: seq<Block>, actual: seq<Block>, matches: seq<Match>) {
    && (forall m :: m in matches ==> IsCandidate(expected, actual, m))
    && OneToOne(matches)
    && (forall m :: IsCandidate(expected, actual, m) ==> Covered(matches, m) && Decided(matches, m))
  }

  method GreedyMatches(expected: seq<Block>, actual: seq<Block>) returns (matches: seq<Match>)
    ensures IsGreedy(expected, actual, matches)
  {
    var candidates := Candidates(expected, actual);
    var sorted := Sort(Before, candidates);
    SortPermutes(Before, candidates);
    SortSorts(Before, candidates);
    hide IsCandidate, Covered, Decided, OneToOne;
    matches := Select(sorted);
    forall m | IsCandidate(expected, actual, m) ensures Covered(matches, m) && Decided(matches, m) {
      assert m in sorted;
    }
  }

  // The greedy matching against every other one-to-one matching.

  function Total(matches: seq<Match>): real {
    if matches == [] then 0.0 else Total(matches[..|matches| - 1]) + matches[|matches| - 1].iou
  }

  lemma {:induction false} TotalAdds(matches: seq<Match>, more: seq<Match>)
    ensures Total(matches + more) == Total(matches) + Total(more)
    ensures forall m :: Total([m]) == m.iou
  {
    forall m ensures Total([m]) == m.iou {
      assert [m][..0] == [];
    }
    if more == [] {
      assert matches + more == matches;
    } else {
      var n := |more| - 1;
      assert (matches + more)[..|matches| + n] == matches + more[..n];
      TotalAdds(matches, more[..n]);
    }
  }

  /** What is left of `m` once everything that `drop` accepts is removed. */
  ghost function Without(matches: seq<Match>, drop: Match -> bool): (rest: seq<Match>)
    ensures forall m :: m in rest <==> m in matches && !drop(m)
  {
    if matches == [] then []
    else
      var m := matches[|matches| - 1];
      var rest := Without(matches[..|matches| - 1], drop);
      if drop(m) then rest else rest + [m]
  }

  lemma {:induction false} WithoutStaysOneToOne(matches: seq<Match>, drop: Match -> bool)
    requires OneToOne(matches)
    ensures OneToOne(Without(matches, drop))
  {
    if matches != [] {
      var n := |matches| - 1;
      var rest := Without(matches[..n], drop);
      WithoutStaysOneToOne(matches[..n], drop);
      forall i | 0 <= i < |rest| ensures !Conflict(rest[i], matches[n]) {
        assert rest[i] in matches[..n];
      }
    }
  }

  lemma {:induction false} NothingDropped(matches: seq<Match>, drop: Match -> bool)
    requires forall m :: m in matches ==> !drop(m)
    ensures Without(matches, drop) == matches
  {
    if matches != [] {
      NothingDropped(matches[..|matches| - 1], drop);
    }
  }

  /** Dropping at most one pair of overlap at most `bound` costs at most `bound`. */
  lemma {:induction false} DroppingOne(matches: seq<Match>, drop: Match -> bool, bound: real)
    requires forall i, j :: 0 <= i < j < |matches| ==> !(drop(matches[i]) && drop(matches[j]))
    requires forall m :: m in matches && drop(m) ==> m.iou <= bound
    requires 0.0 <= bound
    ensures Total(matches) <= Total(Without(matches, drop)) + bound
  {
    if matches != [] {
      var n := |matches| - 1;
      if drop(matches[n]) {
        forall m | m in matches[..n] ensures !drop(m) {
          var i :| 0 <= i < n && matches[i] == m;
        }
        NothingDropped(matches[..n], drop);
      } else {
        DroppingOne(matches[..n], drop, bound);
        var rest := Without(matches[..n], drop);
        assert (rest + [matches[n]])[..|rest|] == rest;
      }
    }
  }

  /** The pairs a chosen pair `g` can pay for on one side. */
  ghost function PaidOnLeft(g: Match): Match -> bool {
    (m: Match) => m.expected == g.expected && m.iou <= g.iou
  }

  ghost function PaidOnRight(g: Match): Match -> bool {
    (m: Match) => m.actual == g.actual && m.iou <= g.iou
  }

  /** One chosen pair pays twice its overlap for everything it covers. */
  lemma PayFor(other: seq<Match>, g: Match) returns (rest: seq<Match>)
    requires OneToOne(other) && g.iou >= 0.0
    ensures Total(other) <= Total(rest) + 2.0 * g.iou
    ensures OneToOne(rest)
    ensures forall m :: m in rest ==> m in other && !(Conflict(g, m) && m.iou <= g.iou)
  {
    hide Total;
    var half := Without(other, PaidOnLeft(g));
    rest := Without(half, PaidOnRight(g));
    WithoutStaysOneToOne(other, PaidOnLeft(g));
    WithoutStaysOneToOne(half, PaidOnRight(g));
    DroppingOne(other, PaidOnLeft(g), g.iou);
    DroppingOne(half, PaidOnRight(g), g.iou);
  }

  lemma StillCovered(greedy: seq<Match>, m: Match)
    requires greedy != [] && Covered(greedy, m)
    requires var g := greedy[|greedy| - 1]; !(Conflict(g, m) && m.iou <= g.iou)
    ensures Covered(greedy[..|greedy| - 1], m)
  {
    var i :| 0 <= i < |greedy| && Conflict(greedy[i], m) && greedy[i].iou >= m.iou;
    assert greedy[..|greedy| - 1][i] == greedy[i];
  }

  /** Any one-to-one matching whose pairs are all covered weighs at most twice as much. */
  lemma {:induction false} CoveringIsHalfOptimal(other: seq<Match>, greedy: seq<Match>)
    requires OneToOne(other)
    requires forall g :: g in greedy ==> g.iou >= 0.0
    requires forall m :: m in other ==> Covered(greedy, m)
    ensures Total(other) <= 2.0 * Total(greedy)
    decreases |greedy|
  {
    if greedy == [] {
      NothingToCover(other);
    } else {
      hide Covered, OneToOne, Conflict;
      var n := |greedy| - 1;
      var rest := PayFor(other, greedy[n]);
      forall m | m in rest ensures Covered(greedy[..n], m) {
        StillCovered(greedy, m);
      }
      CoveringIsHalfOptimal(rest, greedy[..n]);
    }
  }

  lemma NothingCovers(m: Match)
    ensures !Covered([], m)
  {
  }

  lemma NothingToCover(other: seq<Match>)
    requires forall m :: m in other ==> Covered([], m)
    ensures other == []
  {
    hide Covered;
    assert other == [] || other[0] in other;
    forall m ensures !Covered([], m) {
      NothingCovers(m);
    }
  }

  /** The greedy matching has at least half the overlap of any one-to-one matching of candidates. */
  lemma GreedyIsHalfOptimal(expected: seq<Block>, actual: seq<Block>, greedy: seq<Match>, other: seq<Match>)
    requires IsGreedy(expected, actual, greedy)
    requires OneToOne(other) && forall m :: m in other ==> IsCandidate(expected, actual, m)
    ensures Total(other) <= 2.0 * Total(greedy)
  {
    CoveringIsHalfOptimal(other, greedy);
  }

  /** Nothing can be added to a matching that covers every candidate. */
  lemma GreedyIsMaximal(expected: seq<Block>, actual: seq<Block>, greedy: seq<Match>, extra: Match)
    requires IsGreedy(expected, actual, greedy)
    requires IsCandidate(expected, actual, extra)
    ensures !OneToOne(greedy + [extra])
  {
    assert Covered(greedy, extra);
    var i :| 0 <= i < |greedy| && Conflict(greedy[i], extra);
    assert (greedy + [extra])[i] == greedy[i] && (greedy + [extra])[|greedy|] == extra;
  }

  // The detection metrics.

  datatype Detection = Detection(precision: Option<real>, recall: Option<real>, sourcePage: Option<real>,
                                 sourceIou: Option<real>)

  /** The blocks that have a geometry, in order. */
  function Usable(blocks: seq<Block>): (usable: seq<Block>)
    ensures Filters(blocks, usable, (b: Block) => BlockGeometry(b).Some?)
  {
    NothingToFilter((b: Block) => BlockGeometry(b).Some?);
    if blocks == [] then []
    else
      var rest := Usable(blocks[..|blocks| - 1]);
      var last := blocks[|blocks| - 1];
      FilterNext(blocks[..|blocks| - 1], rest, (b: Block) => BlockGeometry(b).Some?, last);
      assert blocks == blocks[..|blocks| - 1] + [last];
      assert rest + [] == rest;
      if BlockGeometry(last).Some? then rest + [last] else rest
  }

  /** The metrics of a greedy matching between the blocks that have a page and a box. */
  method LayoutMetrics(expected: seq<Block>, actual: seq<Block>) returns (d: Detection, ghost matches: seq<Match>)
    ensures IsGreedy(Usable(expected), Usable(actual), matches)
    ensures Usable(expected) == [] <==> d == Detection(None, None, None, None)
    ensures Usable(expected) != [] ==>
      var n, m := |Usable(expected)| as real, |Usable(actual)| as real;
      && d.precision == Some(if m == 0.0 then 0.0 else |matches| as real / m)
      && d.recall == Some(|matches| as real / n)
      && d.sourceIou == Some(Total(matches) / n)
    ensures Usable(expected) != [] ==>
      && d.precision.Some? && d.recall.Some? && d.sourcePage.Some? && d.sourceIou.Some?
      && 0.0 <= d.precision.value <= 1.0
      && 0.0 <= d.recall.value <= 1.0
      && d.sourcePage == d.recall
      && d.recall.value / 2.0 <= d.sourceIou.value <= d.recall.value
  {
    var geometryExpected, geometryActual := Usable(expected), Usable(actual);
    var chosen := GreedyMatches(geometryExpected, geometryActual);
    matches := chosen;
    if geometryExpected == [] {
      return Detection(None, None, None, None), matches;
    }
    GreedyInRange(geometryExpected, geometryActual, chosen);
    hide *;
    var samePage, overlap := 0, 0.0;
    NoTotal();
    for k := 0 to |chosen|
      invariant samePage == k
      invariant overlap == Total(chosen[..k])
    {
      if SharePage(geometryExpected[chosen[k].expected], geometryActual[chosen[k].actual]) {
        samePage := samePage + 1;
      }
      NextTotal(chosen, k);
      overlap := overlap + chosen[k].iou;
    }
    assert chosen[..|chosen|] == chosen;
    GreedyBounds(geometryExpected, geometryActual, matches);
    var count, n := |chosen| as real, |geometryExpected| as real;
    RatioBounds(count, n);
    QuotientOrder(count, overlap, n);
    var precision := 0.0;
    if geometryActual != [] {
      precision := count / |geometryActual| as real;
      RatioBounds(count, |geometryActual| as real);
    }
    d := Detection(Some(precision), Some(count / n), Some(samePage as real / n), Some(overlap / n));
  }

  lemma GreedyInRange(expected: seq<Block>, actual: seq<Block>, matches: seq<Match>)
    requires IsGreedy(expected, actual, matches)
    ensures forall k :: 0 <= k < |matches| ==>
      && matches[k].expected < |expected| && matches[k].actual < |actual|
      && SharePage(expected[matches[k].expected], actual[matches[k].actual])
  {
    hide SharePage, Iou, BlockGeometry, Covered, Decided, OneToOne;
    forall k | 0 <= k < |matches|
      ensures matches[k].expected < |expected| && matches[k].actual < |actual|
      ensures SharePage(expected[matches[k].expected], actual[matches[k].actual])
    {
      assert matches[k] in matches;
    }
  }

  lemma GreedyBounds(expected: seq<Block>, actual: seq<Block>, matches: seq<Match>)
    requires IsGreedy(expected, actual, matches)
    ensures |matches| <= |expected| && |matches| <= |actual|
    ensures |matches| as real / 2.0 <= Total(matches) <= |matches| as real
  {
    hide IsCandidate, Covered, Decided, OneToOne;
    MatchingFits(expected, actual, matches);
    TotalBounds(expected, actual, matches);
  }

  lemma NoTotal()
    ensures Total([]) == 0.0
  {
  }

  lemma NextTotal(matches: seq<Match>, k: nat)
    requires k < |matches|
    ensures Total(matches[..k + 1]) == Total(matches[..k]) + matches[k].iou
  {
    assert matches[..k + 1][..k] == matches[..k];
  }

  lemma QuotientOrder(count: real, overlap: real, n: real)
    requires count / 2.0 <= overlap <= count && n > 0.0
    ensures count / n / 2.0 <= overlap / n <= count / n
  {
    assert count / n * n == count && overlap / n * n == overlap;
  }

  /** A one-to-one matching is no larger than either side. */
  lemma MatchingFits(expected: seq<Block>, actual: seq<Block>, matches: seq<Match>)
    requires OneToOne(matches) && forall m :: m in matches ==> IsCandidate(expected, actual, m)
    ensures |matches| <= |expected| && |matches| <= |actual|
  {
    hide IsCandidate;
    CandidatesAreInRange(expected, actual, matches);
    var left := seq(|matches|, i requires 0 <= i < |matches| => matches[i].expected);
    var right := seq(|matches|, i requires 0 <= i < |matches| => matches[i].actual);
    DistinctBelow(left, |expected|);
    DistinctBelow(right, |actual|);
  }

  lemma CandidatesAreInRange(expected: seq<Block>, actual: seq<Block>, matches: seq<Match>)
    requires forall m :: m in matches ==> IsCandidate(expected, actual, m)
    ensures forall i :: 0 <= i < |matches| ==> matches[i].expected < |expected| && matches[i].actual < |actual|
  {
    forall i | 0 <= i < |matches| ensures matches[i].expected < |expected| && matches[i].actual < |actual| {
      assert matches[i] in matches;
    }
  }

  lemma {:induction false} TotalBounds(expected: seq<Block>, actual: seq<Block>, matches: seq<Match>)
    requires forall m :: m in matches ==> IsCandidate(expected, actual, m)
    ensures |matches| as real / 2.0 <= Total(matches) <= |matches| as real
  {
    hide Iou;
    if matches != [] {
      var m := matches[|matches| - 1];
      assert m in matches;
      IouMeaning(BlockGeometry(expected[m.expected]).value.box, BlockGeometry(actual[m.actual]).value.box);
      TotalBounds(expected, actual, matches[..|matches| - 1]);
    }
  }
}
