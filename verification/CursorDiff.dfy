/**
 * The difference of two cursors (path to content hash): changed, added and
 * removed paths, with a removed and an added path of the same content paired
 * as a rename.
 */
module CursorDiff {
  import opened Sequences
  import opened Sorting

  type Path = string
  type Hash = string
  type Cursor = map<Path, Hash>

  datatype Document = Document(path: Path, hash: Hash)

  datatype Classification = Classification(
    current: Cursor,
    changed: seq<Path>,
    added: seq<Path>,
    removed: seq<Path>,
    renamed: map<Path, Path>)

  /** The cursor of a list of documents; the last document of a path counts. */
  function CursorOf(documents: seq<Document>): Cursor {
    if documents == [] then map[]
    else
      var n := |documents| - 1;
      CursorOf(documents[..n])[documents[n].path := documents[n].hash]
  }

  /** The cursor holds, for every path, the hash of the last document there. */
  lemma {:induction false} CursorHoldsLast(documents: seq<Document>, path: Path, hash: Hash)
    ensures path in CursorOf(documents) && CursorOf(documents)[path] == hash <==>
      exists i :: 0 <= i < |documents| && documents[i] == Document(path, hash)
                  && forall j :: i < j < |documents| ==> documents[j].path != path
  {
    if documents != [] {
      var n := |documents| - 1;
      CursorHoldsLast(documents[..n], path, hash);
      assert forall i :: 0 <= i < n ==> documents[..n][i] == documents[i];
      if documents[n].path == path {
        assert documents[n] == Document(path, documents[n].hash);
      }
    }
  }

  // What a classification should say, without reference to how it is found.

  /** Paths of `cursor` that `other` does not have. */
  ghost function OnlyIn(cursor: Cursor, other: Cursor): set<Path> {
    cursor.Keys - other.Keys
  }

  ghost function ChangedPaths(previous: Cursor, current: Cursor): set<Path> {
    set path | path in previous && path in current && previous[path] != current[path]
  }

  /** The first path, in string order, of the given paths with the given content. */
  ghost predicate FirstWith(paths: set<Path>, cursor: Cursor, hash: Hash, first: Path)
    requires paths <= cursor.Keys
  {
    && first in paths && cursor[first] == hash
    && forall other :: other in paths && cursor[other] == hash ==> StringLe(first, other)
  }

  /** A rename joins the first added and the first removed path of the same content. */
  ghost predicate IsRename(previous: Cursor, current: Cursor, target: Path, origin: Path) {
    && target in current
    && FirstWith(OnlyIn(current, previous), current, current[target], target)
    && FirstWith(OnlyIn(previous, current), previous, current[target], origin)
  }

  ghost predicate Lists(listing: seq<Path>, paths: set<Path>) {
    Distinct(listing) && SortedBy(StringLe, listing) && Elements(listing) == paths
  }

  ghost predicate Classifies(c: Classification, previous: Cursor) {
    && (forall target, origin :: target in c.renamed && c.renamed[target] == origin <==>
        IsRename(previous, c.current, target, origin))
    && Lists(c.changed, ChangedPaths(previous, c.current))
    && Lists(c.added, OnlyIn(c.current, previous) - c.renamed.Keys)
    && Lists(c.removed, OnlyIn(previous, c.current) - c.renamed.Values)
  }

  // The implementation.

  method Listing(paths: set<Path>) returns (listing: seq<Path>)
    ensures Lists(listing, paths)
  {
    listing := SortedStrings(paths);
  }

  /** Extending a sorted listing: earlier paths stay first, and the new one is first where its content is new. */
  lemma FirstWithMore(paths: set<Path>, last: Path, cursor: Cursor, hash: Hash, path: Path)
    requires paths + {last} <= cursor.Keys && last !in paths
    requires forall other :: other in paths ==> StringLe(other, last)
    ensures path in paths ==> (FirstWith(paths + {last}, cursor, hash, path) <==> FirstWith(paths, cursor, hash, path))
    ensures FirstWith(paths + {last}, cursor, hash, last)
       <==> cursor[last] == hash && forall other :: other in paths ==> cursor[other] != hash
  {
    hide StringLe;
    StringOrder();
  }

  lemma ListingStep(listing: seq<Path>, i: nat)
    requires Distinct(listing) && SortedBy(StringLe, listing) && i < |listing|
    ensures Elements(listing[..i + 1]) == Elements(listing[..i]) + {listing[i]}
    ensures listing[i] !in Elements(listing[..i]) && listing[i] in Elements(listing)
    ensures forall other :: other in Elements(listing[..i]) ==> StringLe(other, listing[i])
    ensures Elements(listing[..i]) <= Elements(listing)
  {
    hide StringLe;
    assert listing[..i + 1] == listing[..i] + [listing[i]];
  }

  /** The first removed path of every content; later ones of the same content do not replace it. */
  method FirstRemoved(removed: seq<Path>, previous: Cursor) returns (first: map<Hash, Path>)
    requires Distinct(removed) && SortedBy(StringLe, removed) && Elements(removed) <= previous.Keys
    ensures FirstPaths(first, Elements(removed), previous)
  {
    hide StringLe, SortedBy, Distinct, FirstWith;
    first := map[];
    assert Elements(removed[..0]) == {};
    for i := 0 to |removed|
      invariant Elements(removed[..i]) <= previous.Keys
      invariant FirstPaths(first, Elements(removed[..i]), previous)
    {
      ListingStep(removed, i);
      var path := removed[i];
      var hash := previous[path];
      FirstPathsMore(first, Elements(removed[..i]), previous, path);
      if hash !in first {
        first := first[hash := path];
      }
    }
    assert removed[..|removed|] == removed;
  }

  /** The map from every content among the paths to the first path that has it. */
  ghost predicate FirstPaths(first: map<Hash, Path>, paths: set<Path>, cursor: Cursor)
    requires paths <= cursor.Keys
  {
    && (forall path :: path in paths ==> cursor[path] in first)
    && (forall hash :: hash in first ==> FirstWith(paths, cursor, hash, first[hash]))
  }

  lemma FirstPathsMore(first: map<Hash, Path>, paths: set<Path>, cursor: Cursor, last: Path)
    requires paths + {last} <= cursor.Keys && last !in paths
    requires forall other :: other in paths ==> StringLe(other, last)
    requires FirstPaths(first, paths, cursor)
    ensures FirstPaths(if cursor[last] in first then first else first[cursor[last] := last], paths + {last}, cursor)
  {
    hide StringLe;
    var more := if cursor[last] in first then first else first[cursor[last] := last];
    forall hash | hash in more ensures FirstWith(paths + {last}, cursor, hash, more[hash]) {
      FirstWithMore(paths, last, cursor, hash, more[hash]);
      FirstWithMore(paths, last, cursor, hash, last);
    }
  }

  /** The contents of removed paths that none of the added paths seen so far has. */
  ghost predicate Waits(first: map<Hash, Path>, paths: set<Path>, cursor: Cursor, waiting: map<Hash, Path>)
    requires paths <= cursor.Keys
  {
    forall hash ::
      && (hash in waiting <==> hash in first && forall path :: path in paths ==> cursor[path] != hash)
      && (hash in waiting ==> waiting[hash] == first[hash])
  }

  /** The renames found among the added paths seen so far. */
  ghost predicate Renames(first: map<Hash, Path>, paths: set<Path>, cursor: Cursor, renamed: map<Path, Path>)
    requires paths <= cursor.Keys
  {
    forall path :: RenamesAt(first, paths, cursor, renamed, path)
  }

  ghost predicate RenamesAt(first: map<Hash, Path>, paths: set<Path>, cursor: Cursor, renamed: map<Path, Path>,
                            path: Path)
    requires paths <= cursor.Keys
  {
    && (path in renamed <==> path in paths && cursor[path] in first && FirstWith(paths, cursor, cursor[path], path))
    && (path in renamed ==> renamed[path] == first[cursor[path]])
  }

  lemma WaitsMore(first: map<Hash, Path>, paths: set<Path>, cursor: Cursor, waiting: map<Hash, Path>, last: Path)
    requires paths + {last} <= cursor.Keys
    requires Waits(first, paths, cursor, waiting)
    ensures Waits(first, paths + {last}, cursor, waiting - {cursor[last]})
    ensures cursor[last] !in waiting ==> waiting - {cursor[last]} == waiting
  {
  }

  lemma RenamesMore(first: map<Hash, Path>, paths: set<Path>, cursor: Cursor,
                    waiting: map<Hash, Path>, renamed: map<Path, Path>, last: Path)
    requires paths + {last} <= cursor.Keys && last !in paths
    requires forall other :: other in paths ==> StringLe(other, last)
    requires Waits(first, paths, cursor, waiting) && Renames(first, paths, cursor, renamed)
    ensures Renames(first, paths + {last}, cursor,
                    if cursor[last] in waiting then renamed[last := waiting[cursor[last]]] else renamed)
  {
    var more := if cursor[last] in waiting then renamed[last := waiting[cursor[last]]] else renamed;
    FirstWithMore(paths, last, cursor, cursor[last], last);
    assert RenamesAt(first, paths + {last}, cursor, more, last) by {
      hide StringLe, FirstWith;
      assert RenamesAt(first, paths, cursor, renamed, last);
    }
    forall path | path != last ensures RenamesAt(first, paths + {last}, cursor, more, path) {
      hide StringLe, FirstWith, Waits;
      assert RenamesAt(first, paths, cursor, renamed, path);
      if path in paths {
        FirstWithMore(paths, last, cursor, cursor[path], path);
      }
    }
    hide RenamesAt, FirstWith, StringLe, Waits;
  }

  method Match(added: seq<Path>, current: Cursor, first: map<Hash, Path>) returns (renamed: map<Path, Path>)
    requires Distinct(added) && SortedBy(StringLe, added) && Elements(added) <= current.Keys
    ensures Renames(first, Elements(added), current, renamed)
  {
    hide StringLe, SortedBy, Distinct, FirstWith;
    var waiting := first;
    renamed := map[];
    assert Elements(added[..0]) == {};
    assert Waits(first, {}, current, waiting) && Renames(first, {}, current, renamed);
    hide Waits, Renames;
    for i := 0 to |added|
      invariant Elements(added[..i]) <= current.Keys
      invariant Waits(first, Elements(added[..i]), current, waiting)
      invariant Renames(first, Elements(added[..i]), current, renamed)
    {
      ListingStep(added, i);
      var path := added[i];
      WaitsMore(first, Elements(added[..i]), current, waiting, path);
      RenamesMore(first, Elements(added[..i]), current, waiting, renamed, path);
      var hash := current[path];
      if hash in waiting {
        renamed := renamed[path := waiting[hash]];
        waiting := waiting - {hash};
      }
    }
    assert added[..|added|] == added;
  }

  method ClassifyAgainst(documents: seq<Document>, previous: Cursor) returns (c: Classification)
    ensures c.current == CursorOf(documents)
    ensures Classifies(c, previous)
  {
    var current: Cursor := map[];
    for i := 0 to |documents|
      invariant current == CursorOf(documents[..i])
    {
      assert documents[..i + 1][..i] == documents[..i];
      current := current[documents[i].path := documents[i].hash];
    }
    assert documents[..|documents|] == documents;
    hide *;
    var removed := Listing(previous.Keys - current.Keys);
    var added := Listing(current.Keys - previous.Keys);
    var changed := Listing(set path | path in current.Keys && path in previous && previous[path] != current[path]);
    ListsMeaning(removed, previous.Keys - current.Keys);
    ListsMeaning(added, current.Keys - previous.Keys);
    var first := FirstRemoved(removed, previous);
    var renamed := Match(added, current, first);
    var stillAdded := Listing((set path | path in added) - renamed.Keys);
    var stillRemoved := Listing((set path | path in removed) - renamed.Values);
    c := Classification(current, changed, stillAdded, stillRemoved, renamed);
    ClassifiesFromParts(c, previous, first);
  }

  lemma ListsMeaning(listing: seq<Path>, paths: set<Path>)
    requires Lists(listing, paths)
    ensures Distinct(listing) && SortedBy(StringLe, listing) && Elements(listing) == paths
    ensures paths == set path | path in listing
  {
  }

  lemma ClassifiesFromParts(c: Classification, previous: Cursor, first: map<Hash, Path>)
    requires FirstPaths(first, previous.Keys - c.current.Keys, previous)
    requires Renames(first, c.current.Keys - previous.Keys, c.current, c.renamed)
    requires Lists(c.changed, set path | path in c.current.Keys && path in previous &&
                   previous[path] != c.current[path])
    requires Lists(c.added, c.current.Keys - previous.Keys - c.renamed.Keys)
    requires Lists(c.removed, previous.Keys - c.current.Keys - c.renamed.Values)
    ensures Classifies(c, previous)
  {
    assert ChangedPaths(previous, c.current)
        == set path | path in c.current.Keys && path in previous && previous[path] != c.current[path];
    forall target, origin
      ensures target in c.renamed && c.renamed[target] == origin <==> IsRename(previous, c.current, target, origin)
    {
      hide Lists, StringLe, ChangedPaths;
      assert RenamesAt(first, OnlyIn(c.current, previous), c.current, c.renamed, target);
      FirstIsUnique(previous.Keys - c.current.Keys, previous, origin);
    }
  }

  lemma FirstIsUnique(paths: set<Path>, cursor: Cursor, path: Path)
    requires paths <= cursor.Keys
    ensures forall hash, other ::
      FirstWith(paths, cursor, hash, path) && FirstWith(paths, cursor, hash, other) ==> path == other
  {
    hide StringLe;
    StringOrder();
  }

  // What the classification is for.

  /** Replays a classification on the cursor it was taken against. */
  function Replay(previous: Cursor, c: Classification): Cursor
    requires forall target :: target in c.renamed ==> c.renamed[target] in previous
    requires forall path :: path in c.added || path in c.changed ==> path in c.current
  {
    var moved := map target | target in c.renamed :: previous[c.renamed[target]];
    var written := map path | path in c.added + c.changed :: c.current[path];
    previous - Elements(c.removed) - c.renamed.Values + moved + written
  }

  /** A rename joins a path only the new cursor has to one only the old cursor has, with the same content. */
  lemma RenamesKeepContent(previous: Cursor, c: Classification)
    requires Classifies(c, previous)
    ensures forall target :: target in c.renamed ==>
      && target in c.current && target !in previous
      && c.renamed[target] in previous && c.renamed[target] !in c.current
      && previous[c.renamed[target]] == c.current[target]
  {
    hide StringLe, Lists;
    forall target | target in c.renamed
      ensures && target in c.current && target !in previous
              && c.renamed[target] in previous && c.renamed[target] !in c.current
              && previous[c.renamed[target]] == c.current[target]
    {
      assert IsRename(previous, c.current, target, c.renamed[target]);
    }
  }

  /** No old path is used by two renames. */
  lemma RenamesAreInjective(previous: Cursor, c: Classification, target: Path, other: Path)
    requires Classifies(c, previous)
    requires target in c.renamed && other in c.renamed && c.renamed[target] == c.renamed[other]
    ensures target == other
  {
    RenamesKeepContent(previous, c);
    assert IsRename(previous, c.current, target, c.renamed[target]);
    assert IsRename(previous, c.current, other, c.renamed[other]);
    FirstIsUnique(OnlyIn(c.current, previous), c.current, target);
  }

  /** Every content that a removed and an added path share is the content of exactly one rename. */
  lemma OneRenamePerSharedContent(previous: Cursor, c: Classification, gone: Path, target: Path)
    requires Classifies(c, previous)
    requires gone in previous && gone !in c.current && target in c.current && target !in previous
    requires previous[gone] == c.current[target]
    ensures exists path ::
      && path in c.renamed && path in c.current && c.current[path] == c.current[target]
      && forall other :: other in c.renamed && other in c.current && c.current[other] == c.current[target] ==>
         other == path
  {
    RenamesKeepContent(previous, c);
    var hash := c.current[target];
    var path := HasFirst(OnlyIn(c.current, previous), c.current, target);
    var origin := HasFirst(OnlyIn(previous, c.current), previous, gone);
    assert IsRename(previous, c.current, path, origin);
    assert path in c.renamed && c.current[path] == hash;
    forall other | other in c.renamed && c.current[other] == hash ensures other == path {
      assert IsRename(previous, c.current, other, c.renamed[other]);
      FirstIsUnique(OnlyIn(c.current, previous), c.current, path);
    }
  }

  /** Among the paths with the content of `path` one is first. */
  lemma {:induction false} HasFirst(paths: set<Path>, cursor: Cursor, path: Path) returns (first: Path)
    requires paths <= cursor.Keys && path in paths
    ensures FirstWith(paths, cursor, cursor[path], first)
    decreases paths
  {
    hide StringLe;
    StringOrder();
    var rest := paths - {path};
    if other :| other in rest && cursor[other] == cursor[path] {
      first := HasFirst(rest, cursor, other);
      if StringLe(path, first) {
        first := path;
      }
    } else {
      first := path;
    }
  }

  /** Every path of either cursor is in exactly one class, or unchanged in both. */
  lemma ClassesPartition(previous: Cursor, c: Classification)
    requires Classifies(c, previous)
    ensures forall path ::
      && (path in c.changed <==> path in previous && path in c.current && previous[path] != c.current[path])
      && (path in c.added || path in c.renamed <==> path in c.current && path !in previous)
      && (path in c.removed || path in c.renamed.Values <==> path in previous && path !in c.current)
      && !(path in c.added && path in c.renamed)
      && !(path in c.removed && path in c.renamed.Values)
  {
    RenamesKeepContent(previous, c);
    hide StringLe, IsRename;
    forall path
      ensures path in c.changed <==> path in Elements(c.changed)
      ensures path in c.added <==> path in Elements(c.added)
      ensures path in c.removed <==> path in Elements(c.removed)
    {
    }
  }

  /** Removing, moving and writing what the classification names turns the previous cursor into the current one. */
  lemma ReplayGivesCurrent(previous: Cursor, c: Classification)
    requires Classifies(c, previous)
    ensures forall target :: target in c.renamed ==> c.renamed[target] in previous
    ensures forall path :: path in c.added || path in c.changed ==> path in c.current
    ensures Replay(previous, c) == c.current
  {
    RenamesKeepContent(previous, c);
    ClassesPartition(previous, c);
    hide Classifies, StringLe, IsRename, Lists;
    var replayed := Replay(previous, c);
    forall path ensures path in replayed <==> path in c.current {
    }
    forall path | path in c.current ensures replayed[path] == c.current[path] {
    }
  }
}
