/** Facts about sequences that several modules of the model share. */
module Sequences {

  datatype Option<+T> = None | Some(value: T)

  /** An error returned in place of a raised one; `:-` passes it on. */
  datatype Result<+T, +E> = Ok(value: T) | Err(error: E) {
    predicate IsFailure() {
      Err?
    }

    function PropagateFailure<U>(): Result<U, E>
      requires Err?
    {
      Err(error)
    }

    function Extract(): T
      requires Ok?
    {
      value
    }
  }

  /** No value occurs twice. */
  ghost predicate Distinct<T>(s: seq<T>) {
    forall i, j :: 0 <= i < j < |s| ==> s[i] != s[j]
  }

  function Elements<T(==)>(s: seq<T>): set<T> {
    set x | x in s
  }

  /** The positions, in order, at which `s` has something to keep; `t` is what stands there. */
  ghost predicate FiltersAt<T>(s: seq<T>, t: seq<T>, keep: T -> bool, positions: seq<nat>) {
    && |positions| == |t|
    && (forall i, j :: 0 <= i < j < |positions| ==> positions[i] < positions[j])
    && (forall i :: 0 <= i < |t| ==> positions[i] < |s| && t[i] == s[positions[i]])
    && (forall k: nat :: k in positions <==> k < |s| && keep(s[k]))
  }

  /** `t` is what is left of `s`, in order and with repetitions, when everything else is dropped. */
  ghost predicate Filters<T>(s: seq<T>, t: seq<T>, keep: T -> bool) {
    exists positions: seq<nat> :: FiltersAt(s, t, keep, positions)
  }

  lemma NothingToFilter<T>(keep: T -> bool)
    ensures Filters([], [], keep)
  {
    assert FiltersAt([], [], keep, []);
  }

  lemma FilterNext<T>(s: seq<T>, t: seq<T>, keep: T -> bool, x: T)
    requires Filters(s, t, keep)
    ensures Filters(s + [x], t + if keep(x) then [x] else [], keep)
  {
    var positions: seq<nat> :| FiltersAt(s, t, keep, positions);
    forall i | 0 <= i < |positions| ensures positions[i] < |s| {
      assert positions[i] in positions;
    }
    if keep(x) {
      OneMoreKept(s, t, keep, x, positions);
    } else {
      OneMoreDropped(s, t, keep, x, positions);
    }
  }

  lemma OneMoreKept<T>(s: seq<T>, t: seq<T>, keep: T -> bool, x: T, positions: seq<nat>)
    requires FiltersAt(s, t, keep, positions) && keep(x)
    requires forall i :: 0 <= i < |positions| ==> positions[i] < |s|
    ensures FiltersAt(s + [x], t + [x], keep, positions + [|s|])
  {
    var longer, more := s + [x], positions + [|s|];
    forall k: nat ensures k in more <==> k < |longer| && keep(longer[k]) {
      assert k in more <==> k in positions || k == |s|;
      assert k < |s| ==> longer[k] == s[k];
    }
    forall i | 0 <= i < |t + [x]| ensures more[i] < |longer| && (t + [x])[i] == longer[more[i]] {
      assert i < |t| ==> more[i] == positions[i];
    }
  }

  lemma OneMoreDropped<T>(s: seq<T>, t: seq<T>, keep: T -> bool, x: T, positions: seq<nat>)
    requires FiltersAt(s, t, keep, positions) && !keep(x)
    requires forall i :: 0 <= i < |positions| ==> positions[i] < |s|
    ensures FiltersAt(s + [x], t + [], keep, positions)
  {
    var longer := s + [x];
    assert t + [] == t;
    forall k: nat ensures k in positions <==> k < |longer| && keep(longer[k]) {
      assert k < |s| ==> longer[k] == s[k];
    }
  }

  /** Keeps the first occurrence of every value. */
  function Unique<T(==,!new)>(values: seq<T>): (unique: seq<T>)
    ensures forall v :: v in unique <==> v in values
    ensures Distinct(unique)
  {
    if values == [] then []
    else
      var n := |values| - 1;
      assert values == values[..n] + [values[n]];
      var earlier := Unique(values[..n]);
      if values[n] in earlier then earlier else earlier + [values[n]]
  }

  ghost predicate FirstAt<T>(values: seq<T>, x: T, k: nat) {
    k < |values| && values[k] == x && forall j :: 0 <= j < k ==> values[j] != x
  }

  /** The values kept stand in the order of their first occurrences. */
  lemma {:induction false} UniqueInOrder<T(!new)>(values: seq<T>) returns (positions: seq<nat>)
    ensures |positions| == |Unique(values)|
    ensures forall i, j :: 0 <= i < j < |positions| ==> positions[i] < positions[j]
    ensures forall i :: 0 <= i < |positions| ==> FirstAt(values, Unique(values)[i], positions[i])
  {
    positions := [];
    if values != [] {
      var n := |values| - 1;
      var before, now := Unique(values[..n]), Unique(values);
      var earlier := UniqueInOrder(values[..n]);
      positions := if values[n] in before then earlier else earlier + [n];
      hide Unique;
      forall i | 0 <= i < |earlier| ensures earlier[i] < n && FirstAt(values, before[i], earlier[i]) {
        assert FirstAt(values[..n], before[i], earlier[i]);
        FirstStays(values, before[i], earlier[i]);
      }
      if values[n] !in before {
        FirstAtEnd(values);
      }
      hide FirstAt;
    }
  }

  lemma FirstStays<T>(values: seq<T>, x: T, k: nat)
    requires values != [] && FirstAt(values[..|values| - 1], x, k)
    ensures FirstAt(values, x, k)
  {
    assert forall j :: 0 <= j < |values| - 1 ==> values[..|values| - 1][j] == values[j];
  }

  lemma FirstAtEnd<T>(values: seq<T>)
    requires values != [] && values[|values| - 1] !in values[..|values| - 1]
    ensures FirstAt(values, values[|values| - 1], |values| - 1)
  {
    forall j | 0 <= j < |values| - 1 ensures values[j] != values[|values| - 1] {
      assert values[..|values| - 1][j] in values[..|values| - 1];
    }
  }

  /** A duplicate-free sequence has as many elements as positions. */
  lemma {:induction false} DistinctSize<T>(s: seq<T>)
    requires Distinct(s)
    ensures |Elements(s)| == |s|
  {
    if s == [] {
      assert Elements(s) == {};
    } else {
      var n := |s| - 1;
      DistinctSize(s[..n]);
      assert s == s[..n] + [s[n]];
      assert Elements(s) == Elements(s[..n]) + {s[n]};
      assert s[n] !in Elements(s[..n]);
    }
  }

  /** A sequence never has more elements than positions. */
  lemma {:induction false} ElementsAtMostLength<T>(s: seq<T>)
    ensures |Elements(s)| <= |s|
    ensures |Elements(s)| == |s| ==> Distinct(s)
  {
    if s == [] {
      assert Elements(s) == {};
    } else {
      var n := |s| - 1;
      ElementsAtMostLength(s[..n]);
      assert s == s[..n] + [s[n]];
      assert Elements(s) == Elements(s[..n]) + {s[n]};
      if s[n] in s[..n] {
        assert Elements(s) == Elements(s[..n]);
      }
    }
  }

  lemma DistinctIffSize<T>(s: seq<T>)
    ensures Distinct(s) <==> |Elements(s)| == |s|
  {
    ElementsAtMostLength(s);
    if Distinct(s) {
      DistinctSize(s);
    }
  }

  lemma EmptyDifference<T>(x: set<T>, y: set<T>)
    ensures x - y == {} <==> x <= y
  {
    forall e | e in x && e !in y ensures e in x - y {
    }
  }

  lemma SubsetSize<T>(x: set<T>, y: set<T>)
    requires x <= y
    ensures |x| <= |y|
    ensures |x| == |y| ==> x == y
  {
    assert y == x + (y - x);
    assert |y| == |x| + |y - x|;
  }

  /** Sum of a measure along a sequence. */
  function Sum<T>(f: T -> int, s: seq<T>): int {
    if s == [] then 0 else Sum(f, s[..|s| - 1]) + f(s[|s| - 1])
  }

  lemma {:induction false} SumConcat<T>(f: T -> int, s: seq<T>, t: seq<T>)
    ensures Sum(f, s + t) == Sum(f, s) + Sum(f, t)
  {
    if t == [] {
      assert s + t == s;
    } else {
      var n := |t| - 1;
      SumConcat(f, s, t[..n]);
      assert (s + t)[..|s + t| - 1] == s + t[..n];
    }
  }

  lemma SumRemove<T>(f: T -> int, s: seq<T>, k: nat)
    requires k < |s|
    ensures Sum(f, s) == Sum(f, s[..k] + s[k + 1..]) + f(s[k])
  {
    hide Sum;
    var head, tail := s[..k], s[k + 1..];
    SumConcat(f, head, tail);
    SumConcat(f, head, [s[k]]);
    SumConcat(f, head + [s[k]], tail);
    SumSingle(f, s[k]);
    assert head + [s[k]] + tail == s;
  }

  lemma SumSingle<T>(f: T -> int, x: T)
    ensures Sum(f, [x]) == f(x)
  {
    assert [x][..0] == [];
  }

  /** The multiset of a sequence after one position is dropped. */
  lemma MultisetWithout<T>(s: seq<T>, k: nat)
    requires k < |s|
    ensures multiset(s[..k] + s[k + 1..]) == multiset(s) - multiset{s[k]}
  {
    assert s == s[..k] + [s[k]] + s[k + 1..];
    assert multiset(s) == multiset(s[..k]) + multiset{s[k]} + multiset(s[k + 1..]);
    assert multiset(s[..k] + s[k + 1..]) == multiset(s[..k]) + multiset(s[k + 1..]);
  }

  /** Rearranging a sequence does not change its sum. */
  lemma {:induction false} SumPermutation<T>(f: T -> int, s: seq<T>, t: seq<T>)
    requires multiset(s) == multiset(t)
    ensures Sum(f, s) == Sum(f, t)
    decreases |s|
  {
    if s == [] {
      assert |multiset(t)| == 0;
    } else {
      var n := |s| - 1;
      assert s[n] in multiset(t);
      var k :| 0 <= k < |t| && t[k] == s[n];
      var rest := t[..k] + t[k + 1..];
      assert s[..n] + s[n + 1..] == s[..n];
      MultisetWithout(s, n);
      MultisetWithout(t, k);
      SumPermutation(f, s[..n], rest);
      SumRemove(f, t, k);
    }
  }

  function Below(n: nat): (s: set<nat>)
    ensures forall x: nat :: x in s <==> x < n
    ensures |s| == n
  {
    if n == 0 then {} else Below(n - 1) + {n - 1}
  }

  /** Distinct positions below `n` are at most `n` many; exactly `n` of them are all of them. */
  lemma DistinctBelow(s: seq<nat>, n: nat)
    requires Distinct(s) && forall x :: x in s ==> x < n
    ensures |s| <= n
    ensures |s| == n ==> Elements(s) == Below(n)
  {
    DistinctSize(s);
    SubsetSize(Elements(s), Below(n));
  }
}
