/**
 * Reading-order agreement: pair accuracy, Kendall's tau and Spearman's rho of
 * a reference order and a candidate order.
 */
module RankCorrelation {
  import opened Reals
  import opened Sequences
  import opened Sorting

  // Positions in the candidate order; a repeated item keeps its last position.

  function Positions(candidate: seq<string>): (positions: map<string, nat>)
    ensures forall x :: x in positions <==> x in candidate
    ensures forall x :: x in positions ==> positions[x] < |candidate| && candidate[positions[x]] == x
  {
    if candidate == [] then map[]
    else
      var n := |candidate| - 1;
      assert candidate == candidate[..n] + [candidate[n]];
      Positions(candidate[..n])[candidate[n] := n]
  }

  function AllPresent(reference: seq<string>, candidate: seq<string>): bool {
    forall x :: x in reference ==> x in candidate
  }

  /** The rank each reference item has in the candidate order. */
  function Ranks(reference: seq<string>, candidate: seq<string>): (ranks: seq<nat>)
    requires AllPresent(reference, candidate)
    ensures |ranks| == |reference|
    ensures forall i :: 0 <= i < |ranks| ==>
      ranks[i] == Positions(candidate)[reference[i]] && ranks[i] < |candidate| && candidate[ranks[i]] == reference[i]
  {
    var positions := Positions(candidate);
    assert forall i :: 0 <= i < |reference| ==> reference[i] in reference;
    seq(|reference|, i requires 0 <= i < |reference| => positions[reference[i]])
  }

  lemma RanksAreDistinct(reference: seq<string>, candidate: seq<string>)
    requires AllPresent(reference, candidate) && Distinct(reference)
    ensures Distinct(Ranks(reference, candidate))
  {
  }

  // Counting over ranks.

  /** How many elements of `s` are smaller than `x`. */
  function Smaller(x: nat, s: seq<nat>): nat {
    if s == [] then 0 else Smaller(x, s[..|s| - 1]) + if s[|s| - 1] < x then 1 else 0
  }

  function Inversions(p: seq<nat>): nat {
    if p == [] then 0 else Smaller(p[0], p[1..]) + Inversions(p[1..])
  }

  function Pairs(n: nat): nat {
    if n == 0 then 0 else n - 1 + Pairs(n - 1)
  }

  lemma {:induction false} PairsClosedForm(n: nat)
    ensures 2 * Pairs(n) == n * (n - 1)
  {
    if n > 0 {
      PairsClosedForm(n - 1);
    }
  }

  function SquaredDeltas(p: seq<nat>): int {
    if p == [] then 0
    else
      var n := |p| - 1;
      SquaredDeltas(p[..n]) + (n - p[n]) * (n - p[n])
  }

  // Spearman's rho.

  /** How far the ranks are from the exact reversal of `0..m`. */
  ghost function SquaredReversalDeltas(p: seq<nat>, m: int): int {
    if p == [] then 0
    else
      var n := |p| - 1;
      SquaredReversalDeltas(p[..n], m) + (n + p[n] - m) * (n + p[n] - m)
  }

  ghost function Iota(n: nat): (s: seq<nat>)
    ensures |s| == n && forall i :: 0 <= i < n ==> s[i] == i
  {
    seq(n, i => i)
  }

  ghost function Identity(): nat -> int {
    x => x
  }

  ghost function Square(): nat -> int {
    x => x * x
  }

  lemma {:induction false} IotaSums(n: nat)
    ensures 2 * Sum(Identity(), Iota(n)) == n * (n - 1)
    ensures 6 * Sum(Square(), Iota(n)) == (n - 1) * n * (2 * n - 1)
  {
    if n > 0 {
      IotaSums(n - 1);
      IotaNext(n - 1);
      hide *;
      GaussStep(n, Sum(Identity(), Iota(n - 1)), Sum(Square(), Iota(n - 1)));
    }
  }

  lemma IotaNext(n: nat)
    ensures Sum(Identity(), Iota(n + 1)) == Sum(Identity(), Iota(n)) + n
    ensures Sum(Square(), Iota(n + 1)) == Sum(Square(), Iota(n)) + n * n
  {
    assert Iota(n + 1)[..n] == Iota(n);
  }

  lemma GaussStep(n: int, sum: int, squares: int)
    requires 2 * sum == (n - 1) * (n - 2) && 6 * squares == (n - 2) * (n - 1) * (2 * n - 3)
    ensures 2 * (sum + (n - 1)) == n * (n - 1)
    ensures 6 * (squares + (n - 1) * (n - 1)) == (n - 1) * n * (2 * n - 1)
  {
  }

  lemma {:induction false} DeltasExpand(p: seq<nat>, m: int)
    ensures SquaredDeltas(p) + SquaredReversalDeltas(p, m)
         == 2 * Sum(Square(), Iota(|p|)) + 2 * Sum(Square(), p) + |p| * m * m
            - 2 * m * (Sum(Identity(), Iota(|p|)) + Sum(Identity(), p))
  {
    if p != [] {
      var n := |p| - 1;
      var p', iota := p[..n], Iota(n);
      DeltasExpand(p', m);
      assert Iota(|p|)[..n] == iota;
      ExpandStep(n, p[n], m, SquaredDeltas(p'), SquaredReversalDeltas(p', m),
                 Sum(Square(), iota), Sum(Square(), p'), Sum(Identity(), iota), Sum(Identity(), p'));
    }
  }

  lemma ExpandStep(n: int, x: int, m: int, d: int, r: int, q1: int, q2: int, i1: int, i2: int)
    requires d + r == 2 * q1 + 2 * q2 + n * m * m - 2 * m * (i1 + i2)
    ensures d + (n - x) * (n - x) + (r + (n + x - m) * (n + x - m))
         == 2 * (q1 + n * n) + 2 * (q2 + x * x) + (n + 1) * m * m - 2 * m * (i1 + n + (i2 + x))
  {
    SquareOfSum(n, -x);
    SquareOfSum(n + x, -m);
    SquareOfSum(n, x);
    Distribute(2 * m, i1 + i2, n + x);
    Distribute(m * m, n, 1);
    assert (n + 1) * m * m == m * m * (n + 1) && n * m * m == m * m * n;
    assert 2 * m * (n + x) == -2 * (n + x) * -m;
  }

  lemma SquareOfSum(a: int, b: int)
    ensures (a + b) * (a + b) == a * a + 2 * a * b + b * b
  {
  }

  lemma Distribute(c: int, a: int, b: int)
    ensures c * (a + b) == c * a + c * b
  {
  }

  ghost predicate IsPermutation(p: seq<nat>) {
    Distinct(p) && forall x :: x in p ==> x < |p|
  }

  lemma PermutationMultiset(p: seq<nat>)
    requires IsPermutation(p)
    ensures multiset(p) == multiset(Iota(|p|))
  {
    var iota := Iota(|p|);
    DistinctBelow(p, |p|);
    forall x: nat ensures multiset(p)[x] == multiset(iota)[x] {
      DistinctMultiplicity(p, x);
      DistinctMultiplicity(iota, x);
      assert x in p <==> x in Elements(p);
      assert x < |p| ==> iota[x] == x;
    }
  }

  /** The two squared distances of a permutation always add up to n(n^2-1)/3. */
  lemma DeltasAreComplementary(p: seq<nat>)
    requires IsPermutation(p)
    ensures 3 * (SquaredDeltas(p) + SquaredReversalDeltas(p, |p| - 1)) == |p| * (|p| * |p| - 1)
  {
    hide *;
    var n := |p|;
    PermutationMultiset(p);
    SumPermutation(Identity(), p, Iota(n));
    SumPermutation(Square(), p, Iota(n));
    DeltasExpand(p, n - 1);
    IotaSums(n);
    Complement(n, n - 1, SquaredDeltas(p) + SquaredReversalDeltas(p, n - 1),
               Sum(Square(), Iota(n)), Sum(Identity(), Iota(n)));
  }

  lemma Complement(n: int, m: int, total: int, squares: int, sum: int)
    requires m == n - 1 && 2 * sum == n * (n - 1) && 6 * squares == (n - 1) * n * (2 * n - 1)
    requires total == 2 * squares + 2 * squares + n * m * m - 2 * m * (sum + sum)
    ensures 3 * total == n * (n * n - 1)
  {
    assert 2 * m * (sum + sum) == 2 * m * (n * m);
  }

  lemma {:induction false} ZeroDeltas(p: seq<nat>)
    ensures SquaredDeltas(p) >= 0
    ensures SquaredDeltas(p) == 0 <==> forall i :: 0 <= i < |p| ==> p[i] == i
  {
    if p != [] {
      var n := |p| - 1;
      ZeroDeltas(p[..n]);
      SquareSign(n - p[n]);
    }
  }

  lemma {:induction false} ZeroReversalDeltas(p: seq<nat>, m: int)
    ensures SquaredReversalDeltas(p, m) >= 0
    ensures SquaredReversalDeltas(p, m) == 0 <==> forall i :: 0 <= i < |p| ==> p[i] == m - i
  {
    if p != [] {
      var n := |p| - 1;
      ZeroReversalDeltas(p[..n], m);
      SquareSign(n + p[n] - m);
    }
  }

  lemma SquareSign(x: int)
    ensures x * x >= 0 && (x * x == 0 <==> x == 0)
  {
  }

  lemma RanksArePermutation(reference: seq<string>, candidate: seq<string>)
    requires Distinct(reference) && AllPresent(reference, candidate) && |candidate| == |reference|
    ensures IsPermutation(Ranks(reference, candidate))
  {
    RanksAreDistinct(reference, candidate);
  }

  function RawSpearman(p: seq<nat>): real
    requires |p| >= 2
  {
    1.0 - 6.0 * SquaredDeltas(p) as real / CubicCount(|p|) as real
  }

  /** The sum of the products of both sides' distances from the middle, doubled to stay whole. */
  ghost function CentredProducts(p: seq<nat>, m: int): int {
    if p == [] then 0
    else
      var n := |p| - 1;
      CentredProducts(p[..n], m) + (2 * n - m) * (2 * p[n] - m)
  }

  lemma {:induction false} ProductsAreDifference(p: seq<nat>, m: int)
    ensures CentredProducts(p, m) == SquaredReversalDeltas(p, m) - SquaredDeltas(p)
  {
    if p != [] {
      var n := |p| - 1;
      ProductsAreDifference(p[..n], m);
      DifferenceOfSquares(n, p[n], m);
    }
  }

  lemma DifferenceOfSquares(n: int, x: int, m: int)
    ensures (2 * n - m) * (2 * x - m) == (n + x - m) * (n + x - m) - (n - x) * (n - x)
  {
    SquareOfSum(n + x, -m);
    SquareOfSum(n, x);
    SquareOfSum(n, -x);
    Distribute(2 * n - m, 2 * x, -m);
    Distribute(2 * x, 2 * n, -m);
    Distribute(-m, 2 * n, -m);
  }

  /** On a permutation of the ranks rho is their correlation: the products over what equal orders would give. */
  lemma SpearmanIsCorrelation(p: seq<nat>)
    requires IsPermutation(p) && |p| >= 2
    ensures CentredProducts(Iota(|p|), |p| - 1) > 0
    ensures RawSpearman(p)
         == CentredProducts(p, |p| - 1) as real / CentredProducts(Iota(|p|), |p| - 1) as real
  {
    var n := |p|;
    DeltasAreComplementary(p);
    ProductsAreDifference(p, n - 1);
    DeltasAreComplementary(Iota(n));
    ProductsAreDifference(Iota(n), n - 1);
    NoDeltas(n);
    hide SquaredDeltas, SquaredReversalDeltas, CentredProducts, Iota;
    CorrelationFraction(SquaredDeltas(p), CubicCount(n), CentredProducts(p, n - 1),
                        CentredProducts(Iota(n), n - 1));
  }

  lemma {:induction false} NoDeltas(n: nat)
    ensures SquaredDeltas(Iota(n)) == 0
  {
    if n > 0 {
      assert Iota(n)[..n - 1] == Iota(n - 1);
      NoDeltas(n - 1);
    }
  }

  lemma CorrelationFraction(squared: int, cubic: int, products: int, full: int)
    requires cubic > 0 && 3 * full == cubic && 3 * products == cubic - 6 * squared
    ensures full > 0
    ensures 1.0 - 6.0 * squared as real / cubic as real == products as real / full as real
  {
    var part, whole := 2.0 * squared as real, full as real;
    assert 6.0 * squared as real == 3.0 * part && cubic as real == 3.0 * whole;
    assert products as real == whole - part;
    ThirdsCancel(part, whole);
    OneMinusRatio(part, whole);
  }

  lemma ThirdsCancel(part: real, whole: real)
    requires whole > 0.0
    ensures (3.0 * part) / (3.0 * whole) == part / whole
  {
    var x, y := (3.0 * part) / (3.0 * whole), part / whole;
    assert x * (3.0 * whole) == 3.0 * part && y * whole == part;
    Cancel(x, y, 3.0 * whole);
  }

  function CubicCount(n: nat): (c: int)
    ensures n >= 2 ==> c >= 6
  {
    if n >= 2 then CubicIsPositive(n); n * (n * n - 1) else 0
  }

  lemma CubicIsPositive(n: nat)
    requires n >= 2
    ensures n * (n * n - 1) >= 6
  {
    assert n * n >= 4;
    assert n * (n * n - 1) >= 2 * (n * n - 1);
  }

  function Clamp(x: real): real {
    if x > 1.0 then 1.0 else if x < -1.0 then -1.0 else x
  }

  lemma SpearmanFraction(squared: int, cubic: int)
    requires cubic > 0 && 0 <= squared && 3 * squared <= cubic
    ensures var raw := 1.0 - 6.0 * squared as real / cubic as real;
      && -1.0 <= raw <= 1.0
      && (raw == 1.0 <==> squared == 0)
      && (raw == -1.0 <==> 3 * squared == cubic)
  {
    QuotientAgainst(6.0 * squared as real, cubic as real);
  }

  lemma QuotientAgainst(x: real, c: real)
    requires c > 0.0
    ensures x / c >= 0.0 <==> x >= 0.0
    ensures x / c <= 2.0 <==> x <= 2.0 * c
    ensures x / c == 0.0 <==> x == 0.0
    ensures x / c == 2.0 <==> x == 2.0 * c
  {
    var q := x / c;
    assert q * c == x;
    if q > 2.0 {
      assert (q - 2.0) * c > 0.0;
    } else if q < 0.0 {
      assert -q * c > 0.0;
    } else if q < 2.0 {
      assert (2.0 - q) * c > 0.0;
    }
  }

  ghost predicate IsReversal(reference: seq<string>, candidate: seq<string>) {
    && |candidate| == |reference|
    && forall i :: 0 <= i < |reference| ==> candidate[|reference| - 1 - i] == reference[i]
  }

  /**
   * On a reordering of the reference the clamp never fires; rho is 1 only for the
   * same order, -1 only for the reversal.
   */
  lemma SpearmanOfReordering(reference: seq<string>, candidate: seq<string>)
    requires Distinct(reference) && Distinct(candidate) && AllPresent(reference, candidate)
    requires |candidate| == |reference| >= 2
    ensures var rho := RawSpearman(Ranks(reference, candidate));
      && -1.0 <= rho <= 1.0 && Clamp(rho) == rho
      && (rho == 1.0 <==> candidate == reference)
      && (rho == -1.0 <==> IsReversal(reference, candidate))
  {
    hide SquaredDeltas, SquaredReversalDeltas, Ranks, Positions, Distinct, IsReversal;
    var p := Ranks(reference, candidate);
    var n := |p|;
    RanksArePermutation(reference, candidate);
    DeltasAreComplementary(p);
    ZeroDeltas(p);
    ZeroReversalDeltas(p, n - 1);
    SpearmanFraction(SquaredDeltas(p), CubicCount(n));
    RanksDecideOrder(reference, candidate);
  }

  lemma RanksDecideOrder(reference: seq<string>, candidate: seq<string>)
    requires Distinct(candidate) && AllPresent(reference, candidate) && |candidate| == |reference|
    ensures (forall i :: 0 <= i < |reference| ==> Ranks(reference, candidate)[i] == i) <==> candidate == reference
    ensures (forall i :: 0 <= i < |reference| ==> Ranks(reference, candidate)[i] == |reference| - 1 - i)
        <==> IsReversal(reference, candidate)
  {
    hide *;
    RanksInOrder(reference, candidate);
    RanksReversed(reference, candidate);
  }

  lemma RanksInOrder(reference: seq<string>, candidate: seq<string>)
    requires Distinct(candidate) && AllPresent(reference, candidate) && |candidate| == |reference|
    ensures (forall i :: 0 <= i < |reference| ==> Ranks(reference, candidate)[i] == i) <==> candidate == reference
  {
    var ranks := Ranks(reference, candidate);
    hide *;
    if candidate == reference {
      forall i | 0 <= i < |reference| ensures ranks[i] == i {
        RankIs(reference, candidate, i, i);
      }
    }
    if forall i :: 0 <= i < |reference| ==> ranks[i] == i {
      forall i | 0 <= i < |reference| ensures candidate[i] == reference[i] {
        RankIs(reference, candidate, i, i);
      }
    }
  }

  lemma RanksReversed(reference: seq<string>, candidate: seq<string>)
    requires Distinct(candidate) && AllPresent(reference, candidate) && |candidate| == |reference|
    ensures (forall i :: 0 <= i < |reference| ==> Ranks(reference, candidate)[i] == |reference| - 1 - i)
        <==> IsReversal(reference, candidate)
  {
    var ranks, n := Ranks(reference, candidate), |reference|;
    ReversalMeans(reference, candidate);
    hide *;
    if IsReversal(reference, candidate) {
      forall i | 0 <= i < n ensures ranks[i] == n - 1 - i {
        RankIs(reference, candidate, i, n - 1 - i);
      }
    }
    if forall i :: 0 <= i < n ==> ranks[i] == n - 1 - i {
      forall i | 0 <= i < n ensures candidate[n - 1 - i] == reference[i] {
        RankIs(reference, candidate, i, n - 1 - i);
      }
    }
  }

  lemma ReversalMeans(reference: seq<string>, candidate: seq<string>)
    requires |candidate| == |reference|
    ensures IsReversal(reference, candidate) <==>
      forall i :: 0 <= i < |reference| ==> candidate[|reference| - 1 - i] == reference[i]
  {
  }

  lemma RankIs(reference: seq<string>, candidate: seq<string>, i: nat, k: nat)
    requires Distinct(candidate) && AllPresent(reference, candidate) && i < |reference| && k < |candidate|
    ensures Ranks(reference, candidate)[i] == k <==> candidate[k] == reference[i]
  {
  }

  /** With extra items in the candidate the clamp can fire. */
  lemma ClampCanFire()
    ensures Distinct(["a", "b"]) && Distinct(["x", "y", "z", "b", "a"])
    ensures AllPresent(["a", "b"], ["x", "y", "z", "b", "a"])
    ensures RawSpearman(Ranks(["a", "b"], ["x", "y", "z", "b", "a"])) < -1.0
  {
    var candidate := ["x", "y", "z", "b", "a"];
    var p := Ranks(["a", "b"], candidate);
    assert candidate[4] == "a" && candidate[3] == "b";
    assert p == [4, 3];
    FarRanks();
  }

  lemma FarRanks()
    ensures SquaredDeltas([4, 3]) == 20 && CubicCount(2) == 6
    ensures RawSpearman([4, 3]) < -1.0
  {
    assert [4, 3][..1] == [4] && [4][..0] == [];
    assert SquaredDeltas([4]) == SquaredDeltas([]) + (0 - 4) * (0 - 4);
    assert SquaredDeltas([4, 3]) == SquaredDeltas([4]) + (1 - 3) * (1 - 3) == 20;
  }

  // Extra items in the candidate, all of them before the reversed reference.

  ghost function FarReversal(n: nat, m: nat): (p: seq<nat>)
    requires n <= m
    ensures |p| == n && forall i :: 0 <= i < n ==> p[i] == m - 1 - i
  {
    seq(n, i requires 0 <= i < n => m - 1 - i)
  }

  /** Three times the squared distance of the far reversal. */
  ghost function FarBound(n: int, m: int): int {
    n * (4 * (n * n) - 1) - 6 * (m * (n * n)) + 3 * (n * (m * m))
  }

  lemma {:induction false} FarDeltas(n: nat, m: nat)
    requires n <= m
    ensures 3 * SquaredDeltas(FarReversal(n, m)) == FarBound(n, m)
  {
    if n > 0 {
      var k := n - 1;
      FarDeltas(k, m);
      assert FarReversal(n, m)[..k] == FarReversal(k, m);
      hide FarBound;
      FarBoundStep(k, m);
    }
  }

  lemma FarBoundStep(k: int, m: int)
    ensures FarBound(k + 1, m) == FarBound(k, m) + 3 * ((k - (m - 1 - k)) * (k - (m - 1 - k)))
  {
    var n, x := k + 1, 2 * k + 1;
    CubicStep(k);
    SquareStep(k, m);
    DeltaSquare(k, m);
  }

  lemma CubicStep(k: int)
    ensures (k + 1) * (4 * ((k + 1) * (k + 1)) - 1) == k * (4 * (k * k) - 1) + 3 * ((2 * k + 1) * (2 * k + 1))
  {
  }

  lemma SquareStep(k: int, m: int)
    ensures m * ((k + 1) * (k + 1)) == m * (k * k) + m * (2 * k + 1)
    ensures (k + 1) * (m * m) == k * (m * m) + m * m
  {
  }

  lemma DeltaSquare(k: int, m: int)
    ensures (k - (m - 1 - k)) * (k - (m - 1 - k)) == (2 * k + 1) * (2 * k + 1) - 2 * (m * (2 * k + 1)) + m * m
  {
  }

  /** Every extra item pushes the squared distance of the reversal further past the bound. */
  lemma FarDeltasExceed(n: nat, m: nat)
    requires 2 <= n < m
    ensures 3 * SquaredDeltas(FarReversal(n, m)) > CubicCount(n)
  {
    FarDeltas(n, m);
    var d := m - n;
    hide FarBound, SquaredDeltas;
    FarBoundExcess(n, m, d);
    Positive(n, d);
  }

  lemma Positive(n: int, d: int)
    requires n > 0 && d > 0
    ensures n * (d * d) > 0
  {
    assert d * d > 0;
  }

  lemma FarBoundExcess(n: int, m: int, d: int)
    requires m == n + d
    ensures FarBound(n, m) == n * (n * n - 1) + 3 * (n * (d * d))
  {
    assert m * (n * n) == n * (n * n) + d * (n * n);
    assert m * m == n * n + 2 * (n * d) + d * d;
    assert n * (m * m) == n * (n * n) + 2 * (n * (n * d)) + n * (d * d);
    assert n * (n * d) == d * (n * n);
  }

  ghost function MaxLength(items: seq<string>): (n: nat)
    ensures forall x :: x in items ==> |x| <= n
  {
    if items == [] then 0
    else
      var n := |items| - 1;
      var earlier := MaxLength(items[..n]);
      assert items == items[..n] + [items[n]];
      if |items[n]| > earlier then |items[n]| else earlier
  }

  /** As many different items as wanted, none of them in the reference. */
  ghost function Fillers(reference: seq<string>, count: nat): (fillers: seq<string>)
    ensures |fillers| == count
    ensures forall i :: 0 <= i < count ==> |fillers[i]| == MaxLength(reference) + 1 + i
  {
    seq(count, i requires 0 <= i < count => seq(MaxLength(reference) + 1 + i, j => 'x'))
  }

  ghost function Reversed(items: seq<string>): (reversed: seq<string>)
    ensures |reversed| == |items|
    ensures forall i :: 0 <= i < |items| ==> reversed[i] == items[|items| - 1 - i]
  {
    seq(|items|, i requires 0 <= i < |items| => items[|items| - 1 - i])
  }

  /** A candidate with extra items whose ranks are the far reversal. */
  lemma FarCandidate(reference: seq<string>, m: nat) returns (candidate: seq<string>)
    requires Distinct(reference) && |reference| <= m
    ensures Distinct(candidate) && |candidate| == m && AllPresent(reference, candidate)
    ensures Ranks(reference, candidate) == FarReversal(|reference|, m)
  {
    var n := |reference|;
    var fillers, tail := Fillers(reference, m - n), Reversed(reference);
    candidate := fillers + tail;
    FillersFirst(reference, fillers, tail);
    RanksAreFar(reference, candidate, m);
    hide *;
  }

  lemma RanksAreFar(reference: seq<string>, candidate: seq<string>, m: nat)
    requires Distinct(candidate) && AllPresent(reference, candidate) && |candidate| == m >= |reference|
    requires forall i :: 0 <= i < |reference| ==> candidate[m - 1 - i] == reference[i]
    ensures Ranks(reference, candidate) == FarReversal(|reference|, m)
  {
    var ranks := Ranks(reference, candidate);
    hide *;
    forall i | 0 <= i < |reference| ensures ranks[i] == m - 1 - i {
      assert candidate[m - 1 - i] == reference[i];
      RankIs(reference, candidate, i, m - 1 - i);
    }
    assert ranks == FarReversal(|reference|, m);
  }

  lemma FillersFirst(reference: seq<string>, fillers: seq<string>, tail: seq<string>)
    requires Distinct(reference) && tail == Reversed(reference) && fillers == Fillers(reference, |fillers|)
    ensures var candidate, m := fillers + tail, |fillers| + |reference|;
      && |candidate| == m && Distinct(candidate) && AllPresent(reference, candidate)
      && forall i :: 0 <= i < |reference| ==> candidate[m - 1 - i] == reference[i]
  {
    hide Fillers, Reversed, MaxLength;
    var candidate, n, m := fillers + tail, |reference|, |fillers| + |reference|;
    forall i, j | 0 <= i < j < m ensures candidate[i] != candidate[j] {
      FillersDiffer(reference, fillers, tail, i, j);
    }
    forall x | x in reference ensures x in candidate {
      var i :| 0 <= i < n && reference[i] == x;
      assert candidate[m - 1 - i] == x;
    }
  }

  lemma FillersDiffer(reference: seq<string>, fillers: seq<string>, tail: seq<string>, i: nat, j: nat)
    requires Distinct(reference) && tail == Reversed(reference) && fillers == Fillers(reference, |fillers|)
    requires i < j < |fillers| + |tail|
    ensures (fillers + tail)[i] != (fillers + tail)[j]
  {
    hide Fillers, Reversed, MaxLength;
    var n, k := |reference|, |fillers|;
    if j < k {
      assert |fillers[i]| != |fillers[j]|;
    } else if i < k {
      assert tail[j - k] in reference;
      assert |fillers[i]| > MaxLength(reference) >= |tail[j - k]|;
    } else {
      assert reference[n - 1 - (j - k)] != reference[n - 1 - (i - k)];
    }
  }

  /** For every candidate of this length that has all reference items, the raw coefficient needs no clamp. */
  ghost predicate ClampIsIdle(reference: seq<string>, m: nat)
    requires |reference| >= 2
  {
    forall candidate :: Distinct(candidate) && |candidate| == m && AllPresent(reference, candidate) ==>
      -1.0 <= RawSpearman(Ranks(reference, candidate)) <= 1.0
  }

  /** The clamp is idle for a length exactly when the candidate has no room for extra items. */
  lemma ClampIsIdleIffNoExtras(reference: seq<string>, m: nat)
    requires Distinct(reference) && |reference| >= 2
    ensures ClampIsIdle(reference, m) <==> m <= |reference|
  {
    hide Ranks, Positions, SquaredDeltas, Distinct;
    var n := |reference|;
    if m > n {
      var candidate := FarCandidate(reference, m);
      FarDeltasExceed(n, m);
      BeyondBound(SquaredDeltas(FarReversal(n, m)), CubicCount(n));
    } else {
      forall candidate | Distinct(candidate) && |candidate| == m && AllPresent(reference, candidate)
        ensures -1.0 <= RawSpearman(Ranks(reference, candidate)) <= 1.0
      {
        NoShorterCandidate(reference, candidate);
        SpearmanOfReordering(reference, candidate);
      }
    }
  }

  lemma NoShorterCandidate(reference: seq<string>, candidate: seq<string>)
    requires Distinct(reference) && AllPresent(reference, candidate)
    ensures |reference| <= |candidate|
  {
    DistinctSize(reference);
    ElementsAtMostLength(candidate);
    SubsetSize(Elements(reference), Elements(candidate));
  }

  lemma BeyondBound(squared: int, cubic: int)
    requires cubic > 0 && 3 * squared > cubic
    ensures 1.0 - 6.0 * squared as real / cubic as real < -1.0
  {
    QuotientAgainst(6.0 * squared as real, cubic as real);
  }

  // Kendall's tau.

  lemma {:induction false} SmallerBound(x: nat, s: seq<nat>)
    ensures Smaller(x, s) <= |s|
    ensures Smaller(x, s) == 0 <==> forall k :: 0 <= k < |s| ==> s[k] >= x
    ensures Smaller(x, s) == |s| <==> forall k :: 0 <= k < |s| ==> s[k] < x
  {
    if s != [] {
      SmallerBound(x, s[..|s| - 1]);
    }
  }

  ghost predicate Increasing(p: seq<nat>) {
    forall i, j :: 0 <= i < j < |p| ==> p[i] <= p[j]
  }

  ghost predicate StrictlyDecreasing(p: seq<nat>) {
    forall i, j :: 0 <= i < j < |p| ==> p[i] > p[j]
  }

  lemma OrderFromHead(p: seq<nat>)
    requires p != []
    ensures Increasing(p) <==> Increasing(p[1..]) && forall k :: 0 <= k < |p[1..]| ==> p[1..][k] >= p[0]
    ensures StrictlyDecreasing(p) <==> StrictlyDecreasing(p[1..]) && forall k :: 0 <= k < |p[1..]| ==> p[1..][k] < p[0]
  {
    var rest := p[1..];
    forall k | 0 <= k < |rest| ensures p[k + 1] == rest[k] {
    }
  }

  lemma {:induction false} InversionBounds(p: seq<nat>)
    ensures Inversions(p) <= Pairs(|p|)
    ensures Inversions(p) == 0 <==> Increasing(p)
    ensures Inversions(p) == Pairs(|p|) <==> StrictlyDecreasing(p)
  {
    if p != [] {
      hide Increasing, StrictlyDecreasing;
      InversionBounds(p[1..]);
      SmallerBound(p[0], p[1..]);
      OrderFromHead(p);
    } else {
      assert Increasing(p) && StrictlyDecreasing(p);
    }
  }

  function Kendall(p: seq<nat>): real
    requires |p| >= 2
  {
    PairsClosedForm(|p|);
    1.0 - 2.0 * (Inversions(p) as real / Pairs(|p|) as real)
  }

  lemma PairsPositive(n: nat)
    requires n >= 2
    ensures Pairs(n) > 0
  {
    assert Pairs(n - 1) >= 0;
  }

  /** Tau lies between -1 and 1 and reaches the ends only on the same and on the reversed order. */
  lemma KendallMeaning(p: seq<nat>)
    requires |p| >= 2
    ensures -1.0 <= Kendall(p) <= 1.0
    ensures Kendall(p) == 1.0 <==> Increasing(p)
    ensures Kendall(p) == -1.0 <==> StrictlyDecreasing(p)
  {
    hide Inversions, Pairs, Increasing, StrictlyDecreasing;
    InversionBounds(p);
    PairsPositive(|p|);
    RatioBounds(Inversions(p) as real, Pairs(|p|) as real);
  }

  method RankCorrelations(reference: Option<seq<string>>, candidate: Option<seq<string>>)
    returns (kendall: Option<real>, spearman: Option<real>)
    ensures kendall.None? <==> spearman.None?
    ensures kendall.None? <==>
      reference.None? || candidate.None? || |reference.value| < 2
      || !Distinct(reference.value) || !Distinct(candidate.value)
    ensures kendall.Some? ==>
      if AllPresent(reference.value, candidate.value) then
        var ranks := Ranks(reference.value, candidate.value);
        kendall == Some(Kendall(ranks)) && spearman == Some(Clamp(RawSpearman(ranks)))
      else kendall == spearman == Some(0.0)
  {
    if reference.None? || candidate.None? || |reference.value| < 2 {
      return None, None;
    }
    var order, other := reference.value, candidate.value;
    DistinctIffSize(order);
    DistinctIffSize(other);
    hide Distinct, Ranks, Inversions, Pairs, SquaredDeltas;
    if |Elements(order)| != |order| || |Elements(other)| != |other| {
      return None, None;
    }
    if exists item :: item in order && item !in other {
      return Some(0.0), Some(0.0);
    }
    var tau, rho := CorrelateRanks(Ranks(order, other));
    return Some(tau), Some(rho);
  }

  method CorrelateRanks(p: seq<nat>) returns (tau: real, rho: real)
    requires |p| >= 2
    ensures tau == Kendall(p) && rho == Clamp(RawSpearman(p))
  {
    hide Inversions, Pairs, SquaredDeltas, CubicCount;
    var inversions, pairCount, squared := CountPairs(p);
    PairsPositive(|p|);
    tau := 1.0 - 2.0 * (inversions as real / pairCount as real);
    rho := Clamp(1.0 - 6.0 * squared as real / CubicCount(|p|) as real);
  }

  /** The three counters of the correlation, over the ranks of the reference items. */
  method CountPairs(p: seq<nat>) returns (inversions: nat, pairCount: nat, squared: int)
    ensures inversions == Inversions(p) && pairCount == Pairs(|p|) && squared == SquaredDeltas(p)
  {
    inversions, pairCount, squared := 0, 0, 0;
    for left := 0 to |p|
      invariant inversions + Inversions(p[left..]) == Inversions(p)
      invariant pairCount + Pairs(|p| - left) == Pairs(|p|)
    {
      ghost var inversionsBefore, pairsBefore := inversions, pairCount;
      var rest := p[left + 1..];
      assert p[left..][1..] == rest;
      for k := 0 to |rest|
        invariant inversions == inversionsBefore + Smaller(p[left], rest[..k])
        invariant pairCount == pairsBefore + k
      {
        pairCount := pairCount + 1;
        assert rest[..k + 1][..k] == rest[..k];
        if p[left] > rest[k] {
          inversions := inversions + 1;
        }
      }
      assert rest[..|rest|] == rest;
    }
    for i := 0 to |p|
      invariant squared == SquaredDeltas(p[..i])
    {
      assert p[..i + 1][..i] == p[..i];
      squared := squared + (i - p[i]) * (i - p[i]);
    }
    assert p[..|p|] == p;
  }

  // Pair accuracy.

  /** Pairs of `left` with a later reference item that the candidate keeps in order. */
  function KeptAfter(positions: map<string, nat>, left: string, rest: seq<string>): nat {
    if rest == [] then 0
    else
      var right := rest[|rest| - 1];
      KeptAfter(positions, left, rest[..|rest| - 1])
      + if left in positions && right in positions && positions[left] < positions[right] then 1 else 0
  }

  function KeptPairs(positions: map<string, nat>, reference: seq<string>): nat {
    if reference == [] then 0
    else KeptAfter(positions, reference[0], reference[1..]) + KeptPairs(positions, reference[1..])
  }

  function PairAccuracy(reference: seq<string>, candidate: seq<string>): real {
    if |reference| < 2 then
      if reference <= candidate then 1.0 else 0.0
    else
      PairsClosedForm(|reference|);
      KeptPairs(Positions(candidate), reference) as real / Pairs(|reference|) as real
  }

  method ReadingOrderPairAccuracy(reference: seq<string>, candidate: seq<string>) returns (accuracy: real)
    ensures accuracy == PairAccuracy(reference, candidate)
  {
    if |reference| < 2 {
      var prefix := if |candidate| < |reference| then candidate else candidate[..|reference|];
      return if reference == prefix then 1.0 else 0.0;
    }
    var positions := Positions(candidate);
    AccuracyOf(reference, candidate);
    hide *;
    var correct, total := 0, 0;
    assert reference[0..] == reference;
    for left := 0 to |reference|
      invariant correct + KeptPairs(positions, reference[left..]) == KeptPairs(positions, reference)
      invariant total + Pairs(|reference| - left) == Pairs(|reference|)
    {
      ghost var correctBefore, totalBefore := correct, total;
      var item, rest := reference[left], reference[left + 1..];
      KeptPairsNext(positions, reference, left);
      PairsNext(|rest|);
      NothingKept(positions, item, rest);
      for k := 0 to |rest|
        invariant correct == correctBefore + KeptAfter(positions, item, rest[..k])
        invariant total == totalBefore + k
      {
        KeptNext(positions, item, rest, k);
        total := total + 1;
        if item in positions && rest[k] in positions && positions[item] < positions[rest[k]] {
          correct := correct + 1;
        }
      }
      assert rest[..|rest|] == rest;
    }
    NoPairsLeft(positions, reference);
    PairsPositive(|reference|);
    return correct as real / total as real;
  }

  lemma AccuracyOf(reference: seq<string>, candidate: seq<string>)
    requires |reference| >= 2
    ensures Pairs(|reference|) > 0
    ensures PairAccuracy(reference, candidate)
         == KeptPairs(Positions(candidate), reference) as real / Pairs(|reference|) as real
  {
    PairsPositive(|reference|);
  }

  lemma KeptPairsNext(positions: map<string, nat>, reference: seq<string>, left: nat)
    requires left < |reference|
    ensures KeptPairs(positions, reference[left..])
         == KeptAfter(positions, reference[left], reference[left + 1..]) + KeptPairs(positions, reference[left + 1..])
  {
    assert reference[left..][1..] == reference[left + 1..];
    hide KeptAfter;
  }

  lemma PairsNext(n: nat)
    ensures Pairs(n + 1) == Pairs(n) + n
  {
  }

  lemma NothingKept(positions: map<string, nat>, left: string, rest: seq<string>)
    ensures KeptAfter(positions, left, rest[..0]) == 0
  {
  }

  lemma KeptNext(positions: map<string, nat>, left: string, rest: seq<string>, k: nat)
    requires k < |rest|
    ensures KeptAfter(positions, left, rest[..k + 1])
         == KeptAfter(positions, left, rest[..k])
            + if left in positions && rest[k] in positions && positions[left] < positions[rest[k]] then 1 else 0
  {
    assert rest[..k + 1][..k] == rest[..k];
  }

  lemma NoPairsLeft(positions: map<string, nat>, reference: seq<string>)
    ensures KeptPairs(positions, reference[|reference|..]) == 0 && Pairs(0) == 0
  {
  }

  /** The pairs of positions from `from` on whose items the candidate holds in the same order. */
  ghost function KeptFrom(positions: map<string, nat>, reference: seq<string>, from: nat): set<(nat, nat)> {
    set i: nat, j: nat | from <= i < j < |reference| && KeepsOrder(positions, reference[i], reference[j]) :: (i, j)
  }

  predicate KeepsOrder(positions: map<string, nat>, left: string, right: string) {
    left in positions && right in positions && positions[left] < positions[right]
  }

  ghost function KeptWith(positions: map<string, nat>, reference: seq<string>, i: nat, k: nat): set<(nat, nat)>
    requires i < |reference|
  {
    set j: nat | i < j <= i + k && j < |reference| && KeepsOrder(positions, reference[i], reference[j]) :: (i, j)
  }

  lemma {:induction false} KeptAfterCounts(positions: map<string, nat>, reference: seq<string>, i: nat, k: nat)
    requires i < |reference| && i + k < |reference|
    ensures KeptAfter(positions, reference[i], reference[i + 1..][..k]) == |KeptWith(positions, reference, i, k)|
  {
    hide KeptAfter;
    var rest := reference[i + 1..];
    if k == 0 {
      NothingKept(positions, reference[i], rest);
      assert KeptWith(positions, reference, i, 0) == {};
    } else {
      KeptAfterCounts(positions, reference, i, k - 1);
      KeptNext(positions, reference[i], rest, k - 1);
      assert rest[k - 1] == reference[i + k];
      KeptWithNext(positions, reference, i, k);
      hide KeptWith;
    }
  }

  lemma KeptWithNext(positions: map<string, nat>, reference: seq<string>, i: nat, k: nat)
    requires 0 < k && i + k < |reference|
    ensures KeptWith(positions, reference, i, k)
         == KeptWith(positions, reference, i, k - 1)
            + if KeepsOrder(positions, reference[i], reference[i + k]) then {(i, i + k)} else {}
    ensures (i, i + k) !in KeptWith(positions, reference, i, k - 1)
  {
    hide KeepsOrder;
  }

  /** The pairs counted as kept are those the candidate holds in the same order. */
  lemma {:induction false} KeptPairsAreCounted(positions: map<string, nat>, reference: seq<string>, from: nat)
    requires from <= |reference|
    ensures KeptPairs(positions, reference[from..]) == |KeptFrom(positions, reference, from)|
    decreases |reference| - from
  {
    if from == |reference| {
      assert KeptFrom(positions, reference, from) == {};
    } else {
      var k := |reference| - from - 1;
      KeptPairsAreCounted(positions, reference, from + 1);
      KeptAfterCounts(positions, reference, from, k);
      assert reference[from + 1..][..k] == reference[from + 1..];
      KeptPairsNext(positions, reference, from);
      hide KeptPairs, KeptAfter;
      assert KeptFrom(positions, reference, from)
          == KeptWith(positions, reference, from, k) + KeptFrom(positions, reference, from + 1);
      assert KeptWith(positions, reference, from, k) !! KeptFrom(positions, reference, from + 1);
    }
  }

  /** The accuracy is the share of pairs of the reference that the candidate holds in the same order. */
  lemma AccuracyMeaning(reference: seq<string>, candidate: seq<string>)
    requires |reference| >= 2
    ensures |reference| * (|reference| - 1) > 0
    ensures PairAccuracy(reference, candidate)
         == (2 * |KeptFrom(Positions(candidate), reference, 0)|) as real / (|reference| * (|reference| - 1)) as real
  {
    assert reference[0..] == reference;
    KeptPairsAreCounted(Positions(candidate), reference, 0);
    PairsClosedForm(|reference|);
    AccuracyOf(reference, candidate);
    hide KeptPairs, Pairs, PairAccuracy, KeptFrom;
    DoubledShare(KeptPairs(Positions(candidate), reference), Pairs(|reference|));
  }

  lemma DoubledShare(part: int, whole: int)
    requires whole > 0
    ensures part as real / whole as real == (2 * part) as real / (2 * whole) as real
  {
    var x, y := part as real / whole as real, (2 * part) as real / (2 * whole) as real;
    assert x * whole as real == part as real && y * (2.0 * whole as real) == 2.0 * part as real;
    Cancel(x, y, whole as real);
  }

  lemma {:induction false} KeptOrInverted(positions: map<string, nat>, left: string, rest: seq<string>, p: seq<nat>)
    requires left in positions && |p| == |rest|
    requires forall k :: 0 <= k < |rest| ==> rest[k] in positions && p[k] == positions[rest[k]] != positions[left]
    ensures KeptAfter(positions, left, rest) + Smaller(positions[left], p) == |rest|
  {
    if rest != [] {
      KeptOrInverted(positions, left, rest[..|rest| - 1], p[..|p| - 1]);
    }
  }

  lemma {:induction false} KeptAndInverted(positions: map<string, nat>, reference: seq<string>, p: seq<nat>)
    requires |p| == |reference| && Distinct(p)
    requires forall k :: 0 <= k < |reference| ==> reference[k] in positions && p[k] == positions[reference[k]]
    ensures KeptPairs(positions, reference) + Inversions(p) == Pairs(|reference|)
  {
    if reference != [] {
      KeptOrInverted(positions, reference[0], reference[1..], p[1..]);
      KeptAndInverted(positions, reference[1..], p[1..]);
    }
  }

  /** Tau is twice the pair accuracy minus one. */
  lemma TauFromAccuracy(reference: seq<string>, candidate: seq<string>)
    requires Distinct(reference) && AllPresent(reference, candidate) && |reference| >= 2
    ensures Kendall(Ranks(reference, candidate)) == 2.0 * PairAccuracy(reference, candidate) - 1.0
  {
    hide KeptPairs, Inversions, Pairs;
    var p := Ranks(reference, candidate);
    RanksAreDistinct(reference, candidate);
    assert forall k :: 0 <= k < |reference| ==> reference[k] in reference;
    KeptAndInverted(Positions(candidate), reference, p);
    PairsPositive(|p|);
    SharesAddUp(KeptPairs(Positions(candidate), reference) as real, Inversions(p) as real, Pairs(|p|) as real);
  }

  lemma Share(x: real, c: real) returns (share: real)
    requires c > 0.0
    ensures share == x / c && share * c == x
  {
    share := x / c;
  }

  lemma FactorOut(u: real, v: real, x: real, y: real, c: real)
    requires u * c == x && v * c == y && x + y == c && c > 0.0
    ensures u + v == 1.0
  {
    assert (u + v - 1.0) * c == u * c + v * c - c;
  }

  lemma SharesAddUp(x: real, y: real, total: real)
    requires x + y == total && total > 0.0
    ensures x / total + y / total == 1.0
  {
    var u := Share(x, total);
    var v := Share(y, total);
    FactorOut(u, v, x, y, total);
  }

  // Inversions as sorting effort.

  ghost predicate SwapsAt(p: seq<nat>, q: seq<nat>, k: nat) {
    k + 1 < |p| && q == p[k := p[k + 1]][k + 1 := p[k]]
  }

  ghost predicate AdjacentSwap(p: seq<nat>, q: seq<nat>) {
    exists k: nat :: SwapsAt(p, q, k)
  }

  lemma SmallerAfterSwap(x: nat, s: seq<nat>, t: seq<nat>)
    requires multiset(s) == multiset(t)
    ensures Smaller(x, s) == Smaller(x, t)
  {
    SmallerIsSum(x, s);
    SmallerIsSum(x, t);
    SumPermutation(IsSmaller(x), s, t);
  }

  ghost function IsSmaller(x: nat): nat -> int {
    y => if y < x then 1 else 0
  }

  lemma {:induction false} SmallerIsSum(x: nat, s: seq<nat>)
    ensures Smaller(x, s) == Sum(IsSmaller(x), s)
  {
    if s != [] {
      SmallerIsSum(x, s[..|s| - 1]);
    }
  }

  lemma SmallerCons(x: nat, y: nat, s: seq<nat>)
    ensures Smaller(x, [y] + s) == Smaller(x, s) + if y < x then 1 else 0
  {
    SmallerAfterSwap(x, [y] + s, s + [y]);
    assert (s + [y])[..|s|] == s;
  }

  lemma SwapPermutes(p: seq<nat>, q: seq<nat>, k: nat)
    requires SwapsAt(p, q, k)
    ensures multiset(p) == multiset(q)
  {
    assert p == p[..k] + [p[k], p[k + 1]] + p[k + 2..];
    assert q == p[..k] + [p[k + 1], p[k]] + p[k + 2..];
    assert multiset([p[k], p[k + 1]]) == multiset([p[k + 1], p[k]]);
  }

  /** Swapping two neighbours changes the number of inversions by exactly one. */
  lemma {:induction false} SwapChangesByOne(p: seq<nat>, q: seq<nat>, k: nat)
    requires SwapsAt(p, q, k) && p[k] != p[k + 1]
    ensures Inversions(q) == Inversions(p) + if p[k] < p[k + 1] then 1 else -1
    decreases k
  {
    if k == 0 {
      SwapAtHead(p, q);
    } else {
      assert p[1..][k - 1] == p[k] && p[1..][k] == p[k + 1];
      assert SwapsAt(p[1..], q[1..], k - 1);
      SwapChangesByOne(p[1..], q[1..], k - 1);
      SwapPermutes(p[1..], q[1..], k - 1);
      SmallerAfterSwap(p[0], p[1..], q[1..]);
    }
  }

  lemma SwapAtHead(p: seq<nat>, q: seq<nat>)
    requires SwapsAt(p, q, 0) && p[0] != p[1]
    ensures Inversions(q) == Inversions(p) + if p[0] < p[1] then 1 else -1
  {
    var rest := p[2..];
    assert p[1..] == [p[1]] + rest && q[1..] == [p[0]] + rest;
    assert p[1..][1..] == rest && q[1..][1..] == rest;
    SmallerCons(p[0], p[1], rest);
    SmallerCons(p[1], p[0], rest);
  }

  /** A run of adjacent swaps. */
  ghost predicate SwapRun(run: seq<seq<nat>>, p: seq<nat>, q: seq<nat>) {
    && run != [] && run[0] == p && run[|run| - 1] == q
    && forall i :: 0 <= i < |run| - 1 ==> AdjacentSwap(run[i], run[i + 1])
  }

  lemma {:induction false} RunNeedsInversions(run: seq<seq<nat>>, p: seq<nat>, q: seq<nat>)
    requires SwapRun(run, p, q) && Distinct(p) && Increasing(q)
    ensures Inversions(p) <= |run| - 1
    decreases |run|
  {
    if |run| == 1 {
      InversionBounds(p);
    } else {
      var k: nat :| SwapsAt(p, run[1], k);
      SwapPermutes(p, run[1], k);
      DistinctFromMultiset(p, run[1]);
      SwapChangesByOne(p, run[1], k);
      RunNeedsInversions(run[1..], run[1], q);
    }
  }

  lemma {:induction false} FindDescent(p: seq<nat>) returns (k: nat)
    requires !Increasing(p)
    ensures k + 1 < |p| && p[k] > p[k + 1]
  {
    if |p| >= 2 && p[0] > p[1] {
      k := 0;
    } else {
      k := FindDescent(p[1..]);
      k := k + 1;
    }
  }

  lemma {:induction false} SortingRun(p: seq<nat>) returns (run: seq<seq<nat>>, q: seq<nat>)
    requires Distinct(p)
    ensures SwapRun(run, p, q) && Increasing(q) && |run| - 1 == Inversions(p)
    decreases Inversions(p)
  {
    InversionBounds(p);
    if Increasing(p) {
      run, q := [p], p;
    } else {
      var k := FindDescent(p);
      var next := p[k := p[k + 1]][k + 1 := p[k]];
      assert SwapsAt(p, next, k);
      SwapPermutes(p, next, k);
      DistinctFromMultiset(p, next);
      SwapChangesByOne(p, next, k);
      var rest;
      rest, q := SortingRun(next);
      run := [p] + rest;
      forall i | 0 <= i < |run| - 1 ensures AdjacentSwap(run[i], run[i + 1]) {
        assert i > 0 ==> run[i] == rest[i - 1];
        assert run[i + 1] == rest[i];
      }
    }
  }

  /** The inversion count is the least number of adjacent swaps that restores the reference order. */
  lemma InversionsAreLeastSwaps(p: seq<nat>)
    requires Distinct(p)
    ensures exists run, q :: SwapRun(run, p, q) && Increasing(q) && |run| - 1 == Inversions(p)
    ensures forall run, q :: SwapRun(run, p, q) && Increasing(q) ==> Inversions(p) <= |run| - 1
  {
    var run, q := SortingRun(p);
    forall run, q | SwapRun(run, p, q) && Increasing(q) ensures Inversions(p) <= |run| - 1 {
      RunNeedsInversions(run, p, q);
    }
  }
}
