/**
 * The compatibility gate's walk over pairs of schemas.  It visits every pair
 * once, and still reports exactly the breaks of all reachable pairs.
 */
module OpenApiCompat {
  import opened Sequences
  import opened Sorting
  import opened OpenApiSchema

  function Requirement(direction: Direction, name: string): Break {
    if direction == Request then NewRequired(name) else RequiredRemoved(name)
  }

  datatype Change = Change(location: seq<Step>, what: Break)

  method CollectTypes(shape: Shape) returns (types: set<string>)
    ensures types == ShapeTypes(shape)
    decreases shape
  {
    match shape.rawType {
      case OneType(name) => types := {name};
      case ManyTypes(names) => types := Elements(names);
      case NoType =>
        if shape.alternatives.List? {
          types := {};
          for k := 0 to |shape.alternatives.shapes|
            invariant forall name :: name in types <==>
              exists i :: 0 <= i < k && name in ShapeTypes(shape.alternatives.shapes[i])
          {
            var more := CollectTypes(shape.alternatives.shapes[k]);
            types := types + more;
          }
        } else if shape.hasProperties {
          types := {"object"};
        } else {
          types := {};
        }
    }
  }

  /** One comparison of two schemas; `root` is the resolved pair it starts from. */
  datatype Task = Task(before: Spec, after: Spec, direction: Direction, root: Pair) {
    ghost predicate Ready() {
      before.Closed() && after.Closed() && Known(root)
    }

    ghost predicate Known(p: Pair) {
      PairOf(before, after, p)
    }

    ghost function AllPairs(): set<Pair> {
      set o, n | o in before.nodes.Keys && n in after.nodes.Keys :: (o, n)
    }

    ghost predicate At(location: seq<Step>, p: Pair)
      requires Ready()
    {
      Walk(before, after, root, location) == Some(p)
    }

    ghost predicate Breaks(p: Pair, what: Break)
      requires Known(p)
    {
      IsBreak(direction, before.nodes[p.0], after.nodes[p.1], what)
    }

    lemma SoundIsReported(changes: seq<Change>, p: Pair, what: Break)
      requires Ready() && Known(p)
      ensures !Breaks(p, what) ==> Reported(changes, p, what)
    {
    }

    lemma RequirementBreaks(p: Pair)
      requires Known(p) && before.nodes[p.0].properties.Declared?
      ensures forall name :: Breaks(p, Requirement(direction, name)) <==>
        var o, n := before.nodes[p.0].required, after.nodes[p.1].required;
        name in if direction == Request then n - o else o - n
    {
    }

    lemma OtherRequirement(p: Pair, name: string)
      requires Known(p)
      ensures direction == Request ==> !Breaks(p, RequiredRemoved(name))
      ensures direction == Response ==> !Breaks(p, NewRequired(name))
    {
    }

    lemma RequirementReported(changes: seq<Change>, p: Pair, name: string)
      requires Ready() && Known(p) && Reported(changes, p, Requirement(direction, name))
      ensures Reported(changes, p, NewRequired(name)) && Reported(changes, p, RequiredRemoved(name))
    {
      OtherRequirement(p, name);
      hide ReportedIn, Breaks;
    }

    lemma RequirementNotBroken(changes: seq<Change>, p: Pair, name: string)
      requires Ready() && Known(p) && !Breaks(p, Requirement(direction, name))
      ensures Reported(changes, p, NewRequired(name)) && Reported(changes, p, RequiredRemoved(name))
    {
      OtherRequirement(p, name);
      hide ReportedIn, Breaks;
    }

    lemma PatternBreak(p: Pair)
      requires Known(p)
      ensures Breaks(p, PatternChanged) <==> before.nodes[p.0].pattern != after.nodes[p.1].pattern
    {
    }

    lemma BoundBreak(p: Pair, bound: Bound)
      requires Known(p)
      ensures var o, n := before.nodes[p.0].bounds, after.nodes[p.1].bounds;
        Breaks(p, BoundTightened(bound)) <==>
        && bound in o && bound in n
        && if bound.IsMinimum() == (direction == Request) then n[bound] > o[bound] else n[bound] < o[bound]
    {
    }

    /** A report names a reachable pair that really breaks that way. */
    ghost predicate Genuine(change: Change)
      requires Ready()
    {
      exists p: Pair :: Known(p) && At(change.location, p) && Breaks(p, change.what)
    }

    ghost predicate ReportedIn(changes: seq<Change>, p: Pair, what: Break)
      requires Ready()
    {
      exists location :: At(location, p) && Change(location, what) in changes
    }

    ghost predicate Reported(changes: seq<Change>, p: Pair, what: Break)
      requires Ready() && Known(p)
    {
      Breaks(p, what) ==> ReportedIn(changes, p, what)
    }

    ghost predicate Visited(seen: set<Pair>, p: Pair, step: Step)
      requires Ready() && Known(p)
    {
      var q := Next(before, after, p, step);
      q.Some? ==> q.value in seen
    }

    /** All breaks of the pair are reported and all its common children were reached. */
    ghost predicate Done(changes: seq<Change>, seen: set<Pair>, p: Pair)
      requires Ready() && Known(p)
    {
      && (forall what :: Reported(changes, p, what))
      && (forall step :: Visited(seen, p, step))
    }

    /** Everything seen is done, except the pairs whose walk is still open. */
    ghost predicate AllDone(changes: seq<Change>, seen: set<Pair>, open: set<Pair>)
      requires Ready()
    {
      forall p :: p in seen - open ==> Known(p) && Done(changes, seen, p)
    }

    lemma ReportIsKept(changes: seq<Change>, longer: seq<Change>, p: Pair, what: Break)
      requires Ready() && Known(p) && changes <= longer && Reported(changes, p, what)
      ensures Reported(longer, p, what)
    {
      if Breaks(p, what) {
        var location :| At(location, p) && Change(location, what) in changes;
        assert Change(location, what) in longer;
      }
    }

    lemma ReportsAreKept(changes: seq<Change>, longer: seq<Change>, p: Pair)
      requires Ready() && Known(p) && changes <= longer
      ensures forall what :: Reported(changes, p, what) ==> Reported(longer, p, what)
    {
      forall what | Reported(changes, p, what) ensures Reported(longer, p, what) {
        ReportIsKept(changes, longer, p, what);
      }
    }

    lemma DoneIsKept(changes: seq<Change>, seen: set<Pair>, longer: seq<Change>, larger: set<Pair>, p: Pair)
      requires Ready() && Known(p) && changes <= longer && seen <= larger && Done(changes, seen, p)
      ensures Done(longer, larger, p)
    {
      forall what ensures Reported(longer, p, what) {
        ReportIsKept(changes, longer, p, what);
      }
      forall step ensures Visited(larger, p, step) {
        assert Visited(seen, p, step);
      }
    }

    lemma AllDoneIsKept(changes: seq<Change>, longer: seq<Change>, seen: set<Pair>, open: set<Pair>)
      requires Ready() && changes <= longer && AllDone(changes, seen, open)
      ensures AllDone(longer, seen, open)
    {
      forall p | p in seen - open ensures Known(p) && Done(longer, seen, p) {
        DoneIsKept(changes, seen, longer, seen, p);
      }
    }

    lemma OpenPair(changes: seq<Change>, seen: set<Pair>, open: set<Pair>, p: Pair)
      requires Ready() && AllDone(changes, seen, open)
      ensures AllDone(changes, seen + {p}, open + {p})
    {
      forall q | q in (seen + {p}) - (open + {p}) ensures Known(q) && Done(changes, seen + {p}, q) {
        assert q in seen - open;
        DoneIsKept(changes, seen, changes, seen + {p}, q);
      }
    }

    lemma ClosePair(changes: seq<Change>, seen: set<Pair>, open: set<Pair>, p: Pair)
      requires Ready() && Known(p) && AllDone(changes, seen, open + {p}) && Done(changes, seen, p)
      ensures AllDone(changes, seen, open)
    {
      forall q | q in seen - open ensures Known(q) && Done(changes, seen, q) {
        assert q == p || q in seen - (open + {p});
      }
    }

    ghost predicate FieldDone(changes: seq<Change>, seen: set<Pair>, p: Pair, name: string)
      requires Ready() && Known(p)
    {
      Reported(changes, p, FieldRemoved(name)) && Visited(seen, p, Field(name))
    }

    lemma FieldDoneIsKept(changes: seq<Change>, longer: seq<Change>, seen: set<Pair>, larger: set<Pair>, p: Pair)
      requires Ready() && Known(p) && changes <= longer && seen <= larger
      ensures forall name :: FieldDone(changes, seen, p, name) ==> FieldDone(longer, larger, p, name)
    {
      forall name | FieldDone(changes, seen, p, name) ensures FieldDone(longer, larger, p, name) {
        ReportIsKept(changes, longer, p, FieldRemoved(name));
      }
    }

    lemma StepDown(p: Pair, location: seq<Step>, step: Step)
      requires Ready() && Known(p) && At(location, p) && Next(before, after, p, step).Some?
      ensures At(location + [step], Next(before, after, p, step).value)
    {
      assert (location + [step])[..|location|] == location;
    }

    lemma FieldBreak(p: Pair, name: string)
      requires Known(p)
      ensures Breaks(p, FieldRemoved(name)) <==>
        name in before.nodes[p.0].Fields() && name !in after.nodes[p.1].Fields()
    {
    }

    lemma UndeclaredProperties(changes: seq<Change>, p: Pair)
      requires Ready() && Known(p)
      ensures !before.nodes[p.0].properties.Declared? ==>
        && (forall name :: Reported(changes, p, NewRequired(name)) && Reported(changes, p, RequiredRemoved(name)))
        && before.nodes[p.0].Fields() == map[]
    {
      hide ReportedIn, Breaks;
      forall name ensures !before.nodes[p.0].properties.Declared? ==>
        !Breaks(p, NewRequired(name)) && !Breaks(p, RequiredRemoved(name))
      {
        NothingRequired(p, name);
      }
    }

    lemma NothingRequired(p: Pair, name: string)
      requires Known(p)
      ensures !before.nodes[p.0].properties.Declared? ==>
        !Breaks(p, NewRequired(name)) && !Breaks(p, RequiredRemoved(name))
    {
    }

    lemma PairIsReachable(location: seq<Step>, p: Pair)
      requires Ready() && Known(p) && At(location, p)
      ensures Reachable(before, after, root, p) && p in AllPairs()
    {
    }

    lemma AllLocalChecks(changes: seq<Change>, p: Pair)
      requires Ready() && Known(p)
      requires Reported(changes, p, TypesChanged) && Reported(changes, p, EnumNarrowed) &&
        Reported(changes, p, PatternChanged)
      requires forall bound :: Reported(changes, p, BoundTightened(bound))
      requires forall name :: Reported(changes, p, NewRequired(name)) && Reported(changes, p, RequiredRemoved(name))
      ensures LocalChecksDone(changes, p)
    {
    }

    /** What is closed under the common steps holds everything reachable. */
    lemma {:induction false} ReachableIsSeen(changes: seq<Change>, seen: set<Pair>, location: seq<Step>, p: Pair)
      requires Ready() && root in seen && AllDone(changes, seen, {}) && Known(p) && At(location, p)
      ensures p in seen
      decreases |location|
    {
      if location != [] {
        var parent := Walk(before, after, root, location[..|location| - 1]).value;
        ReachableIsSeen(changes, seen, location[..|location| - 1], parent);
        assert Done(changes, seen, parent);
        assert Visited(seen, parent, location[|location| - 1]);
      }
    }

    lemma ReachableIsReported(changes: seq<Change>, seen: set<Pair>, p: Pair, what: Break)
      requires Ready() && root in seen && AllDone(changes, seen, {})
      requires Known(p) && Reachable(before, after, root, p)
      ensures Reported(changes, p, what)
    {
      hide *;
      var location := ReachedAt(p);
      ReachableIsSeen(changes, seen, location, p);
      DoneReports(changes, seen, p, what);
    }

    lemma ReachedAt(p: Pair) returns (location: seq<Step>)
      requires Ready() && Known(p) && Reachable(before, after, root, p)
      ensures At(location, p)
    {
      location :| Walk(before, after, root, location) == Some(p);
    }

    lemma DoneReports(changes: seq<Change>, seen: set<Pair>, p: Pair, what: Break)
      requires Ready() && Known(p) && AllDone(changes, seen, {}) && p in seen
      ensures Reported(changes, p, what)
    {
      assert p in seen - {};
      assert Done(changes, seen, p);
    }

    lemma BreakIsIncompatible(p: Pair, what: Break)
      requires Ready() && Known(p) && Reachable(before, after, root, p) && Breaks(p, what)
      ensures Incompatible(direction, before, after, root)
    {
      hide Walk, IsBreak, Reachable;
    }

    lemma SomeBreak() returns (p: Pair, what: Break)
      requires Ready() && Incompatible(direction, before, after, root)
      ensures Known(p) && Reachable(before, after, root, p) && Breaks(p, what)
    {
      hide Walk, IsBreak, Reachable;
      p, what :| PairOf(before, after, p) && Reachable(before, after, root, p)
        && IsBreak(direction, before.nodes[p.0], after.nodes[p.1], what);
    }

    lemma ReportIsIncompatible(change: Change)
      requires Ready() && Genuine(change)
      ensures Incompatible(direction, before, after, root)
    {
      hide Reachable, At, Breaks;
      var p :| Known(p) && At(change.location, p) && Breaks(p, change.what);
      PairIsReachable(change.location, p);
      BreakIsIncompatible(p, change.what);
    }

    lemma SomeReport(changes: seq<Change>, p: Pair, what: Break)
      requires Ready() && Known(p) && Breaks(p, what) && Reported(changes, p, what)
      ensures changes != []
    {
    }

    lemma NothingReported(changes: seq<Change>)
      requires Ready() && forall change :: change in changes ==> Genuine(change)
      requires forall p, what :: Known(p) && Reachable(before, after, root, p) ==> Reported(changes, p, what)
      ensures changes == [] <==> !Incompatible(direction, before, after, root)
    {
      var incompatible := Incompatible(direction, before, after, root);
      hide *;
      if changes != [] {
        assert changes[0] in changes;
        ReportIsIncompatible(changes[0]);
      } else if incompatible {
        var p, what := SomeBreak();
        SomeReport(changes, p, what);
      }
    }

    ghost predicate LocalChecksDone(changes: seq<Change>, p: Pair)
      requires Ready() && Known(p)
    {
      && Reported(changes, p, TypesChanged) && Reported(changes, p, EnumNarrowed) &&
         Reported(changes, p, PatternChanged)
      && (forall bound :: Reported(changes, p, BoundTightened(bound)))
      && (forall name :: Reported(changes, p, NewRequired(name)) && Reported(changes, p, RequiredRemoved(name)))
    }

    lemma EveryBreakChecked(changes: seq<Change>, seen: set<Pair>, p: Pair, what: Break)
      requires Ready() && Known(p) && LocalChecksDone(changes, p)
      requires forall name :: name in before.nodes[p.0].Fields() ==> FieldDone(changes, seen, p, name)
      ensures Reported(changes, p, what)
    {
      hide Reported;
      if what.FieldRemoved? {
        FieldBreak(p, what.field);
        SoundIsReported(changes, p, what);
        assert what.field in before.nodes[p.0].Fields() ==> FieldDone(changes, seen, p, what.field);
      }
    }

    /** The individual checks together cover every kind of break and every kind of step. */
    lemma ChecksCoverPair(changes: seq<Change>, seen: set<Pair>, p: Pair)
      requires Ready() && Known(p) && LocalChecksDone(changes, p)
      requires forall name :: name in before.nodes[p.0].Fields() ==> FieldDone(changes, seen, p, name)
      requires Visited(seen, p, Item)
      ensures Done(changes, seen, p)
    {
      hide Reported, LocalChecksDone;
      forall what ensures Reported(changes, p, what) {
        EveryBreakChecked(changes, seen, p, what);
      }
      forall step ensures Visited(seen, p, step) {
        if step.Field? && step.name in before.nodes[p.0].Fields() {
          assert FieldDone(changes, seen, p, step.name);
        }
      }
    }
  }

  /** `seen` and `changes` are shared by the whole recursion. */
  class Comparison {
    const task: Task
    var changes: seq<Change>
    var seen: set<Pair>

    constructor (task: Task)
      requires task.Ready()
      ensures this.task == task && changes == [] && seen == {} && Valid()
    {
      this.task := task;
      changes, seen := [], {};
    }

    ghost predicate Valid()
      reads this
    {
      && task.Ready()
      && (forall change :: change in changes ==> task.Genuine(change))
      && (forall p :: p in seen ==> task.Known(p) && Reachable(task.before, task.after, task.root, p))
    }

    method Report(location: seq<Step>, what: Break, ghost p: Pair)
      requires Valid() && task.Ready() && task.Known(p) && task.At(location, p) && task.Breaks(p, what)
      modifies this`changes
      ensures Valid() && changes == old(changes) + [Change(location, what)]
      ensures task.Reported(changes, p, what)
    {
      changes := changes + [Change(location, what)];
      assert task.Genuine(Change(location, what));
    }

    // The local checks of one pair, in the order of the source.

    method CompareTypesAndEnum(p: Pair, location: seq<Step>)
      requires Valid() && task.Ready() && task.Known(p) && task.At(location, p)
      modifies this`changes
      ensures Valid() && old(changes) <= changes
      ensures task.Reported(changes, p, TypesChanged) && task.Reported(changes, p, EnumNarrowed)
    {
      var o, n := task.before.nodes[p.0], task.after.nodes[p.1];
      var oldTypes := CollectTypes(Shape(o.rawType, o.alternatives, !o.properties.Absent?));
      var newTypes := CollectTypes(Shape(n.rawType, n.alternatives, !n.properties.Absent?));
      if oldTypes != {} && newTypes != {} {
        var compatible := if task.direction == Request then oldTypes <= newTypes else newTypes <= oldTypes;
        if !compatible {
          Report(location, TypesChanged, p);
        }
      }
      if o.enumeration.Some? && n.enumeration.Some? {
        var oldValues, newValues := Elements(o.enumeration.value), Elements(n.enumeration.value);
        var compatible := if task.direction == Request then oldValues <= newValues else newValues <= oldValues;
        if !compatible {
          Report(location, EnumNarrowed, p);
        }
      }
    }

    method ReportRequirements(p: Pair, location: seq<Step>, names: seq<string>)
      requires Valid() && task.Ready() && task.Known(p) && task.At(location, p)
      requires forall name :: name in names ==> task.Breaks(p, Requirement(task.direction, name))
      modifies this`changes
      ensures Valid() && old(changes) <= changes
      ensures forall name :: name in names ==> task.Reported(changes, p, Requirement(task.direction, name))
    {
      hide *;
      for k := 0 to |names|
        invariant Valid() && old(changes) <= changes
        invariant forall i :: 0 <= i < k ==> task.Reported(changes, p, Requirement(task.direction, names[i]))
      {
        ghost var before := changes;
        assert names[k] in names;
        Report(location, Requirement(task.direction, names[k]), p);
        task.ReportsAreKept(before, changes, p);
      }
    }

    method CompareRequired(p: Pair, location: seq<Step>)
      requires Valid() && task.Ready() && task.Known(p) && task.At(location, p)
      requires task.before.nodes[p.0].properties.Declared?
      modifies this`changes
      ensures Valid() && old(changes) <= changes
      ensures forall name ::
        task.Reported(changes, p, NewRequired(name)) &&
        task.Reported(changes, p, RequiredRemoved(name))
    {
      var o, n := task.before.nodes[p.0].required, task.after.nodes[p.1].required;
      var names := SortedStrings(if task.direction == Request then n - o else o - n);
      task.RequirementBreaks(p);
      hide *;
      ReportRequirements(p, location, names);
      forall name ensures task.Reported(changes, p, NewRequired(name)) &&
        task.Reported(changes, p, RequiredRemoved(name)) {
        if name in names {
          task.RequirementReported(changes, p, name);
        } else {
          task.RequirementNotBroken(changes, p, name);
        }
      }
    }

    method CompareBound(p: Pair, location: seq<Step>, bound: Bound)
      requires Valid() && task.Ready() && task.Known(p) && task.At(location, p)
      modifies this`changes
      ensures Valid() && old(changes) <= changes
      ensures task.Reported(changes, p, BoundTightened(bound))
    {
      var o, n := task.before.nodes[p.0], task.after.nodes[p.1];
      hide *;
      task.BoundBreak(p, bound);
      task.SoundIsReported(changes, p, BoundTightened(bound));
      if bound in o.bounds && bound in n.bounds {
        var oldValue, newValue := o.bounds[bound], n.bounds[bound];
        var tightened :=
          if bound.IsMinimum() then (if task.direction == Request then newValue > oldValue else newValue < oldValue)
          else (if task.direction == Request then newValue < oldValue else newValue > oldValue);
        if tightened {
          Report(location, BoundTightened(bound), p);
        }
      }
    }

    method ComparePattern(p: Pair, location: seq<Step>)
      requires Valid() && task.Ready() && task.Known(p) && task.At(location, p)
      modifies this`changes
      ensures Valid() && old(changes) <= changes
      ensures task.Reported(changes, p, PatternChanged)
    {
      var o, n := task.before.nodes[p.0], task.after.nodes[p.1];
      hide *;
      task.PatternBreak(p);
      task.SoundIsReported(changes, p, PatternChanged);
      if o.pattern != n.pattern {
        Report(location, PatternChanged, p);
      }
    }

    method CompareBoundsAndPattern(p: Pair, location: seq<Step>)
      requires Valid() && task.Ready() && task.Known(p) && task.At(location, p)
      modifies this`changes
      ensures Valid() && old(changes) <= changes
      ensures forall bound :: task.Reported(changes, p, BoundTightened(bound))
      ensures task.Reported(changes, p, PatternChanged)
    {
      hide *;
      var bounds := [Minimum, MinLength, MinItems, Maximum, MaxLength, MaxItems];
      for k := 0 to |bounds|
        invariant Valid() && old(changes) <= changes
        invariant forall i :: 0 <= i < k ==> task.Reported(changes, p, BoundTightened(bounds[i]))
      {
        ghost var before := changes;
        CompareBound(p, location, bounds[k]);
        task.ReportsAreKept(before, changes, p);
      }
      ghost var before := changes;
      ComparePattern(p, location);
      task.ReportsAreKept(before, changes, p);
      forall bound ensures task.Reported(changes, p, BoundTightened(bound)) {
        assert bounds[0] == Minimum && bounds[1] == MinLength && bounds[2] == MinItems;
        assert bounds[3] == Maximum && bounds[4] == MaxLength && bounds[5] == MaxItems;
        var i :| 0 <= i < |bounds| && bounds[i] == bound;
      }
    }

    // The recursion.

    /** The walk over the declared fields of a pair that was just marked as seen. */
    method CompareFields(p: Pair, location: seq<Step>, ghost open: set<Pair>)
      requires Valid() && task.Ready() && task.Known(p) && task.At(location, p)
      requires open <= seen && task.AllDone(changes, seen, open)
      modifies this
      ensures Valid() && old(seen) <= seen && old(changes) <= changes
      ensures task.AllDone(changes, seen, open)
      ensures forall name :: name in task.before.nodes[p.0].Fields() ==> task.FieldDone(changes, seen, p, name)
      decreases task.AllPairs() - seen, 2
    {
      var oldFields, newFields := task.before.nodes[p.0].Fields(), task.after.nodes[p.1].Fields();
      var rest := oldFields.Keys;
      while rest != {}
        invariant rest <= oldFields.Keys
        invariant Valid() && old(seen) <= seen && old(changes) <= changes
        invariant task.AllDone(changes, seen, open)
        invariant forall name :: name in oldFields.Keys - rest ==> task.FieldDone(changes, seen, p, name)
        decreases rest
      {
        var name :| name in rest;
        rest := rest - {name};
        CompareField(p, location, name, open);
      }
    }

    method CompareField(p: Pair, location: seq<Step>, name: string, ghost open: set<Pair>)
      requires Valid() && task.Ready() && task.Known(p) && task.At(location, p)
      requires open <= seen && task.AllDone(changes, seen, open)
      requires name in task.before.nodes[p.0].Fields()
      modifies this
      ensures Valid() && old(seen) <= seen && old(changes) <= changes
      ensures task.AllDone(changes, seen, open)
      ensures task.FieldDone(changes, seen, p, name)
      ensures forall other :: task.FieldDone(old(changes), old(seen), p, other) ==>
        task.FieldDone(changes, seen, p, other)
      decreases task.AllPairs() - seen, 1
    {
      var oldFields, newFields := task.before.nodes[p.0].Fields(), task.after.nodes[p.1].Fields();
      ghost var changesBefore, seenBefore := changes, seen;
      task.FieldBreak(p, name);
      if name !in newFields {
        Report(location, FieldRemoved(name), p);
        task.AllDoneIsKept(changesBefore, changes, seen, open);
      } else {
        task.StepDown(p, location, Field(name));
        Compare(oldFields[name], newFields[name], location + [Field(name)], open);
        task.SoundIsReported(changes, p, FieldRemoved(name));
      }
      task.FieldDoneIsKept(changesBefore, changes, seenBefore, seen, p);
    }

    method CompareProperties(p: Pair, location: seq<Step>, ghost open: set<Pair>)
      requires Valid() && task.Ready() && task.Known(p) && task.At(location, p)
      requires open <= seen && task.AllDone(changes, seen, open)
      modifies this
      ensures Valid() && old(seen) <= seen && old(changes) <= changes
      ensures task.AllDone(changes, seen, open)
      ensures forall name ::
        task.Reported(changes, p, NewRequired(name)) &&
        task.Reported(changes, p, RequiredRemoved(name))
      ensures forall name :: name in task.before.nodes[p.0].Fields() ==> task.FieldDone(changes, seen, p, name)
      decreases task.AllPairs() - seen, 3
    {
      var declared := task.before.nodes[p.0].properties.Declared?;
      task.UndeclaredProperties(changes, p);
      hide *;
      if declared {
        ghost var entry := changes;
        CompareRequired(p, location);
        task.AllDoneIsKept(entry, changes, seen, open);
        ghost var required := changes;
        CompareFields(p, location, open);
        task.ReportsAreKept(required, changes, p);
      }
    }

    method CompareItems(p: Pair, location: seq<Step>, ghost open: set<Pair>)
      requires Valid() && task.Ready() && task.Known(p) && task.At(location, p)
      requires open <= seen && task.AllDone(changes, seen, open)
      modifies this
      ensures Valid() && old(seen) <= seen && old(changes) <= changes
      ensures task.AllDone(changes, seen, open)
      ensures task.Visited(seen, p, Item)
      decreases task.AllPairs() - seen, 1
    {
      var oldItems, newItems := task.before.nodes[p.0].items, task.after.nodes[p.1].items;
      if oldItems.Some? && newItems.Some? {
        task.StepDown(p, location, Item);
        Compare(oldItems.value, newItems.value, location + [Item], open);
      }
    }

    /** All checks of a pair that was just marked as seen. */
    method CompareOpened(p: Pair, location: seq<Step>, ghost open: set<Pair>)
      requires Valid() && task.Ready() && task.Known(p) && task.At(location, p)
      requires open <= seen && task.AllDone(changes, seen, open)
      modifies this
      ensures Valid() && old(seen) <= seen && old(changes) <= changes
      ensures task.AllDone(changes, seen, open)
      ensures task.Done(changes, seen, p)
      decreases task.AllPairs() - seen, 4
    {
      hide *;
      ghost var c0 := changes;
      CompareTypesAndEnum(p, location);
      ghost var c1 := changes;
      task.AllDoneIsKept(c0, c1, seen, open);
      CompareProperties(p, location, open);
      ghost var c2, s2 := changes, seen;
      task.ReportsAreKept(c1, c2, p);
      CompareItems(p, location, open);
      ghost var c3 := changes;
      task.ReportsAreKept(c2, c3, p);
      task.FieldDoneIsKept(c2, c3, s2, seen, p);
      CompareBoundsAndPattern(p, location);
      task.ReportsAreKept(c3, changes, p);
      task.FieldDoneIsKept(c3, changes, seen, seen, p);
      task.AllDoneIsKept(c3, changes, seen, open);
      task.AllLocalChecks(changes, p);
      task.ChecksCoverPair(changes, seen, p);
    }

    /** Compares two schemas and everything they share below. */
    method Compare(o: NodeId, n: NodeId, location: seq<Step>, ghost open: set<Pair>)
      requires Valid() && task.Ready() && task.Known((o, n))
      requires task.At(location, Resolved(task.before, task.after, (o, n)))
      requires open <= seen && task.AllDone(changes, seen, open)
      modifies this
      ensures Valid() && old(seen) <= seen && old(changes) <= changes
      ensures Resolved(task.before, task.after, (o, n)) in seen
      ensures task.AllDone(changes, seen, open)
      decreases task.AllPairs() - seen, 0
    {
      var oldSchema := ResolveReference(task.before, o);
      var newSchema := ResolveReference(task.after, n);
      var p := (oldSchema, newSchema);
      assert p == Resolved(task.before, task.after, (o, n)) && task.Known(p);
      if p in seen {
        return;
      }
      hide *;
      task.OpenPair(changes, seen, open, p);
      MarkSeen(p, location);
      CompareOpened(p, location, open + {p});
      task.ClosePair(changes, seen, open, p);
    }

    /** Adds a reachable pair to the shared set. */
    method MarkSeen(p: Pair, ghost location: seq<Step>)
      requires Valid() && task.Ready() && task.Known(p) && task.At(location, p)
      modifies this`seen
      ensures Valid() && seen == old(seen) + {p} && p in task.AllPairs()
    {
      task.PairIsReachable(location, p);
      seen := seen + {p};
    }
  }

  /** What the comparison of one schema pair promises of its report. */
  ghost predicate Faithful(task: Task, changes: seq<Change>) {
    && task.Ready()
    && (forall change :: change in changes ==> task.Genuine(change))
    && (forall p, what :: task.Known(p) && Reachable(task.before, task.after, task.root, p) ==>
        task.Reported(changes, p, what))
    && (changes == [] <==> !Incompatible(task.direction, task.before, task.after, task.root))
  }

  /** The whole comparison of two schemas, started with nothing seen. */
  method CompareSchemas(before: Spec, after: Spec, direction: Direction, o: NodeId, n: NodeId)
    returns (changes: seq<Change>)
    requires before.Closed() && after.Closed() && PairOf(before, after, (o, n))
    ensures Faithful(Task(before, after, direction, Resolved(before, after, (o, n))), changes)
  {
    var root := Resolved(before, after, (o, n));
    var task := Task(before, after, direction, root);
    var comparison := new Comparison(task);
    comparison.Compare(o, n, [], {});
    changes := comparison.changes;
    forall p, what | task.Known(p) && Reachable(before, after, root, p) ensures task.Reported(changes, p, what) {
      task.ReachableIsReported(changes, comparison.seen, p, what);
    }
    task.NothingReported(changes);
  }
}
