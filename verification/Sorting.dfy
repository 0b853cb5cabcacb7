/**
 * Stable sorting by a total preorder, and the order of strings.  The library
 * sort of the source's language is modelled by the function `Sort`.
 */
module Sorting {
  import opened Sequences

  ghost predicate TotalPreorder<T(!new)>(le: (T, T) -> bool) {
    && (forall x, y :: le(x, y) || le(y, x))
    && (forall x, y, z :: le(x, y) && le(y, z) ==> le(x, z))
  }

  ghost predicate SortedBy<T>(le: (T, T) -> bool, s: seq<T>) {
    forall i, j :: 0 <= i < j < |s| ==> le(s[i], s[j])
  }

  function Insert<T>(le: (T, T) -> bool, x: T, s: seq<T>): seq<T> {
    if s == [] then [x]
    else if le(x, s[0]) then [x] + s
    else [s[0]] + Insert(le, x, s[1..])
  }

  function Sort<T>(le: (T, T) -> bool, s: seq<T>): seq<T> {
    if s == [] then [] else Insert(le, s[0], Sort(le, s[1..]))
  }

  lemma {:induction false} InsertPermutes<T>(le: (T, T) -> bool, x: T, s: seq<T>)
    ensures multiset(Insert(le, x, s)) == multiset(s) + multiset{x}
  {
    if s != [] && !le(x, s[0]) {
      InsertPermutes(le, x, s[1..]);
      assert s == [s[0]] + s[1..];
    }
  }

  lemma {:induction false} SortPermutes<T>(le: (T, T) -> bool, s: seq<T>)
    ensures multiset(Sort(le, s)) == multiset(s)
    ensures |Sort(le, s)| == |s|
    ensures forall x :: x in Sort(le, s) <==> x in s
  {
    SortKeepsMultiset(le, s);
    hide *;
    SameMembers(Sort(le, s), s);
  }

  lemma {:induction false} SortKeepsMultiset<T>(le: (T, T) -> bool, s: seq<T>)
    ensures multiset(Sort(le, s)) == multiset(s)
  {
    if s != [] {
      SortKeepsMultiset(le, s[1..]);
      InsertPermutes(le, s[0], Sort(le, s[1..]));
      hide Insert;
      assert s == [s[0]] + s[1..];
    }
  }

  lemma SameMembers<T>(s: seq<T>, t: seq<T>)
    requires multiset(s) == multiset(t)
    ensures |s| == |t|
    ensures forall x :: x in s <==> x in t
  {
    assert |s| == |multiset(s)| == |multiset(t)|;
    forall x ensures x in s <==> x in t {
      assert x in s <==> x in multiset(s);
      assert x in t <==> x in multiset(t);
    }
  }

  lemma {:induction false} InsertSorts<T(!new)>(le: (T, T) -> bool, x: T, s: seq<T>)
    requires TotalPreorder(le) && SortedBy(le, s)
    ensures SortedBy(le, Insert(le, x, s))
  {
    if s != [] && !le(x, s[0]) {
      InsertSorts(le, x, s[1..]);
      var rest := Insert(le, x, s[1..]);
      InsertPermutes(le, x, s[1..]);
      forall y | y in rest ensures le(s[0], y) {
        assert y in multiset(rest);
        assert y == x || y in s[1..];
      }
    }
  }

  lemma {:induction false} SortSorts<T(!new)>(le: (T, T) -> bool, s: seq<T>)
    requires TotalPreorder(le)
    ensures SortedBy(le, Sort(le, s))
  {
    if s != [] {
      SortSorts(le, s[1..]);
      InsertSorts(le, s[0], Sort(le, s[1..]));
    }
  }

  /** What is left of a sequence when everything else is dropped. */
  ghost function Kept<T>(s: seq<T>, keep: T -> bool): seq<T> {
    if s == [] then [] else (if keep(s[0]) then [s[0]] else []) + Kept(s[1..], keep)
  }

  lemma {:induction false} InsertIsStable<T>(le: (T, T) -> bool, x: T, s: seq<T>, keep: T -> bool)
    requires forall y, z :: keep(y) && keep(z) ==> le(y, z)
    ensures Kept(Insert(le, x, s), keep) == (if keep(x) then [x] else []) + Kept(s, keep)
  {
    if s != [] && !le(x, s[0]) {
      InsertIsStable(le, x, s[1..], keep);
      assert ([s[0]] + Insert(le, x, s[1..]))[1..] == Insert(le, x, s[1..]);
    } else {
      assert Insert(le, x, s)[1..] == s;
    }
  }

  /** Values that are equivalent in the order stay in the order they were given in. */
  lemma {:induction false} SortIsStable<T>(le: (T, T) -> bool, s: seq<T>, keep: T -> bool)
    requires forall y, z :: keep(y) && keep(z) ==> le(y, z)
    ensures Kept(Sort(le, s), keep) == Kept(s, keep)
  {
    if s != [] {
      SortIsStable(le, s[1..], keep);
      InsertIsStable(le, s[0], Sort(le, s[1..]), keep);
    }
  }

  /** Sorting keeps a duplicate-free sequence duplicate-free. */
  lemma DistinctFromMultiset<T>(s: seq<T>, t: seq<T>)
    requires Distinct(s) && multiset(s) == multiset(t)
    ensures Distinct(t)
  {
    DistinctSize(s);
    assert |s| == |multiset(s)| == |multiset(t)| == |t|;
    forall x ensures x in s <==> x in t {
      assert x in s <==> x in multiset(s);
      assert x in t <==> x in multiset(t);
    }
    assert Elements(s) == Elements(t);
    ElementsAtMostLength(t);
  }

  ghost predicate AntisymmetricOn<T>(le: (T, T) -> bool, s: seq<T>) {
    forall i, j :: 0 <= i < |s| && 0 <= j < |s| && le(s[i], s[j]) && le(s[j], s[i]) ==> s[i] == s[j]
  }

  lemma SortedHead<T>(le: (T, T) -> bool, s: seq<T>, t: seq<T>) returns (j: nat)
    requires SortedBy(le, s) && multiset(s) == multiset(t) && t != []
    ensures j < |s| && s[j] == t[0] && (j == 0 || le(s[0], t[0]))
  {
    assert t[0] in multiset(s);
    j :| 0 <= j < |s| && s[j] == t[0];
  }

  lemma HeadsAgree<T>(le: (T, T) -> bool, s: seq<T>, t: seq<T>)
    requires SortedBy(le, s) && SortedBy(le, t) && multiset(s) == multiset(t)
    requires AntisymmetricOn(le, s) && s != [] && t != []
    ensures s[0] == t[0]
  {
    var j := SortedHead(le, s, t);
    var i := SortedHead(le, t, s);
  }

  /** Two sorted arrangements of the same values agree where the order is antisymmetric on them. */
  lemma {:induction false} SortedUnique<T(!new)>(le: (T, T) -> bool, s: seq<T>, t: seq<T>)
    requires SortedBy(le, s) && SortedBy(le, t) && multiset(s) == multiset(t)
    requires AntisymmetricOn(le, s)
    ensures s == t
    decreases |s|
  {
    SameLength(s, t);
    if s != [] {
      HeadsAgree(le, s, t);
      SortedTail(le, s);
      SortedTail(le, t);
      TailMultisets(s, t);
      SortedUnique(le, s[1..], t[1..]);
      SameHeadAndTail(s, t);
    }
  }

  lemma SameLength<T>(s: seq<T>, t: seq<T>)
    requires multiset(s) == multiset(t)
    ensures |s| == |t|
  {
    assert |s| == |multiset(s)| && |t| == |multiset(t)|;
  }

  lemma SameHeadAndTail<T>(s: seq<T>, t: seq<T>)
    requires s != [] && t != [] && s[0] == t[0] && s[1..] == t[1..]
    ensures s == t
  {
    assert s == [s[0]] + s[1..] && t == [t[0]] + t[1..];
  }

  lemma TailMultisets<T>(s: seq<T>, t: seq<T>)
    requires s != [] && t != [] && s[0] == t[0] && multiset(s) == multiset(t)
    ensures multiset(s[1..]) == multiset(t[1..])
  {
    MultisetTail(s);
    MultisetTail(t);
  }

  lemma MultisetTail<T>(s: seq<T>)
    requires s != []
    ensures multiset(s[1..]) == multiset(s) - multiset{s[0]}
  {
    assert s == [s[0]] + s[1..];
    assert multiset(s) == multiset{s[0]} + multiset(s[1..]);
  }

  lemma SortedTail<T>(le: (T, T) -> bool, s: seq<T>)
    requires SortedBy(le, s) && s != []
    ensures SortedBy(le, s[1..])
    ensures AntisymmetricOn(le, s) ==> AntisymmetricOn(le, s[1..])
  {
  }

  // The order of strings: lexicographic by code point.

  predicate StringLe(a: string, b: string) {
    if a == "" then true
    else if b == "" then false
    else if a[0] != b[0] then a[0] < b[0]
    else StringLe(a[1..], b[1..])
  }

  /** Both start with the same `k` characters; then the first ends, or has the smaller character. */
  predicate DecidesAt(a: string, b: string, k: nat) {
    k <= |a| && k <= |b| && a[..k] == b[..k] && (k == |a| || (k < |b| && a[k] < b[k]))
  }

  /** The first difference decides, and a prefix comes first. */
  lemma {:induction false} FirstDifferenceDecides(a: string, b: string)
    ensures StringLe(a, b) <==> exists k: nat :: DecidesAt(a, b, k)
  {
    if a == "" || b == "" || a[0] != b[0] {
      assert DecidesAt(a, b, 0) <==> StringLe(a, b);
      forall k | k > 0 ensures !DecidesAt(a, b, k) {
        assert k <= |a| && k <= |b| ==> a[..k][0] == a[0] && b[..k][0] == b[0];
      }
    } else {
      FirstDifferenceDecides(a[1..], b[1..]);
      assert !DecidesAt(a, b, 0);
      if StringLe(a, b) {
        var k: nat :| DecidesAt(a[1..], b[1..], k);
        DecidesLater(a, b, k);
      }
      if k: nat :| DecidesAt(a, b, k) {
        DecidesLater(a, b, k - 1);
      }
    }
  }

  lemma DecidesLater(a: string, b: string, k: nat)
    requires a != "" && b != "" && a[0] == b[0]
    ensures DecidesAt(a, b, k + 1) <==> DecidesAt(a[1..], b[1..], k)
  {
    if k + 1 <= |a| && k + 1 <= |b| {
      assert a[..k + 1] == [a[0]] + a[1..][..k] && b[..k + 1] == [b[0]] + b[1..][..k];
      assert a[1..][..k] == a[..k + 1][1..] && b[1..][..k] == b[..k + 1][1..];
    }
  }

  lemma {:induction false} StringLeTotal(a: string, b: string)
    ensures StringLe(a, b) || StringLe(b, a)
    ensures StringLe(a, b) && StringLe(b, a) ==> a == b
    ensures a == b ==> StringLe(a, b)
  {
    if a != "" && b != "" && a[0] == b[0] {
      StringLeTotal(a[1..], b[1..]);
      assert a == [a[0]] + a[1..] && b == [b[0]] + b[1..];
    }
  }

  lemma {:induction false} StringLeTransitive(a: string, b: string, c: string)
    requires StringLe(a, b) && StringLe(b, c)
    ensures StringLe(a, c)
  {
    if a != "" && b != "" && c != "" && a[0] == b[0] == c[0] {
      StringLeTransitive(a[1..], b[1..], c[1..]);
    }
  }

  lemma StringOrder()
    ensures LinearOrder(StringLe)
  {
    forall a, b ensures (StringLe(a, b) || StringLe(b, a)) && (StringLe(a, b) && StringLe(b, a) ==> a == b) {
      StringLeTotal(a, b);
    }
    forall a, b, c | StringLe(a, b) && StringLe(b, c) ensures StringLe(a, c) {
      StringLeTransitive(a, b, c);
    }
  }

  /** Pairs of strings in lexicographic order. */
  predicate PairLe(a: (string, string), b: (string, string)) {
    if a.0 != b.0 then StringLe(a.0, b.0) else StringLe(a.1, b.1)
  }

  lemma PairOrder()
    ensures LinearOrder(PairLe)
  {
    hide StringLe;
    StringOrder();
  }

  // Sets as sorted lists.

  ghost function Listed<T>(s: set<T>): (listed: seq<T>)
    ensures Distinct(listed) && Elements(listed) == s
  {
    if s == {} then []
    else
      var x :| x in s;
      var rest := Listed(s - {x});
      assert x !in Elements(rest) && Elements(rest + [x]) == Elements(rest) + {x};
      rest + [x]
  }

  /** A linear order: a total preorder in which equivalent values are equal. */
  ghost predicate LinearOrder<T(!new)>(le: (T, T) -> bool) {
    TotalPreorder(le) && forall x, y :: le(x, y) && le(y, x) ==> x == y
  }

  /** The sorted listing of a set. */
  ghost function Listing<T(!new)>(le: (T, T) -> bool, s: set<T>): (listing: seq<T>)
    requires LinearOrder(le)
    ensures Distinct(listing) && SortedBy(le, listing) && Elements(listing) == s
    ensures forall x :: x in listing <==> x in s
  {
    SortPermutes(le, Listed(s));
    SortSorts(le, Listed(s));
    DistinctFromMultiset(Listed(s), Sort(le, Listed(s)));
    assert forall x :: x in Listed(s) <==> x in Elements(Listed(s));
    Sort(le, Listed(s))
  }

  method SortedElements<T(==, !new)>(le: (T, T) -> bool, s: set<T>) returns (r: seq<T>)
    requires LinearOrder(le)
    ensures r == Listing(le, s)
  {
    var rest := s;
    var listed: seq<T> := [];
    while rest != {}
      invariant rest <= s
      invariant Distinct(listed)
      invariant forall x :: x in listed <==> x in s - rest
      decreases rest
    {
      var x :| x in rest;
      assert x !in listed;
      assert forall i :: 0 <= i < |listed| ==> listed[i] in listed;
      listed := listed + [x];
      rest := rest - {x};
    }
    r := Sort(le, listed);
    SortPermutes(le, listed);
    SortSorts(le, listed);
    DistinctFromMultiset(listed, r);
    ListingUnique(le, r, Listing(le, s));
  }

  /** A sorted duplicate-free listing is determined by its set. */
  lemma ListingUnique<T(!new)>(le: (T, T) -> bool, r: seq<T>, t: seq<T>)
    requires LinearOrder(le)
    requires Distinct(r) && SortedBy(le, r)
    requires Distinct(t) && SortedBy(le, t)
    requires Elements(r) == Elements(t)
    ensures r == t
  {
    forall x ensures multiset(r)[x] == multiset(t)[x] {
      DistinctMultiplicity(r, x);
      DistinctMultiplicity(t, x);
      assert x in r <==> x in Elements(r);
      assert x in t <==> x in Elements(t);
    }
    SortedUnique(le, r, t);
  }

  /** The sorted listing of a set of strings. */
  ghost function SortedListing(s: set<string>): (listing: seq<string>)
    ensures Distinct(listing) && SortedBy(StringLe, listing) && Elements(listing) == s
    ensures forall x :: x in listing <==> x in s
  {
    StringOrder();
    Listing(StringLe, s)
  }

  method SortedStrings(s: set<string>) returns (r: seq<string>)
    ensures Distinct(r) && SortedBy(StringLe, r)
    ensures forall x :: x in r <==> x in s
    ensures r == SortedListing(s)
  {
    StringOrder();
    r := SortedElements(StringLe, s);
  }

  lemma {:induction false} DistinctMultiplicity<T>(s: seq<T>, x: T)
    requires Distinct(s)
    ensures multiset(s)[x] == if x in s then 1 else 0
  {
    if s != [] {
      var n := |s| - 1;
      assert s == s[..n] + [s[n]];
      DistinctMultiplicity(s[..n], x);
    }
  }
}
