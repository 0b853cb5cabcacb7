/**
 * What the reports of the compatibility gate say, in terms of the two schemas
 * alone: which differences of a reachable pair are reported and which are not.
 */
module OpenApiMeaning {
  import opened Sequences
  import opened OpenApiSchema
  import opened OpenApiCompat

  // Type names and references.

  /** The alternative at the end of a path of positions, going down through shapes without a type of their own. */
  function ShapeAt(shape: Shape, path: seq<nat>): Option<Shape> {
    if path == [] then Some(shape)
    else if !shape.rawType.NoType? || shape.alternatives.NoList? || path[0] >= |shape.alternatives.shapes| then None
    else ShapeAt(shape.alternatives.shapes[path[0]], path[1..])
  }

  /** A shape names a type itself; one with neither type nor alternatives is an object when it has properties. */
  predicate Names(shape: Shape, name: string) {
    match shape.rawType
    case OneType(only) => name == only
    case ManyTypes(names) => name in names
    case NoType => shape.alternatives.NoList? && shape.hasProperties && name == "object"
  }

  /** The types of a shape are what the shapes below it name, at any depth of alternatives. */
  lemma TypesAreNamed(shape: Shape, name: string)
    ensures name in ShapeTypes(shape) <==>
      exists path :: ShapeAt(shape, path).Some? && Names(ShapeAt(shape, path).value, name)
  {
    if name in ShapeTypes(shape) {
      var path := NamedSomewhere(shape, name);
    }
    forall path | ShapeAt(shape, path).Some? && Names(ShapeAt(shape, path).value, name)
      ensures name in ShapeTypes(shape)
    {
      NamedIsType(shape, path, name);
    }
  }

  lemma {:induction false} NamedSomewhere(shape: Shape, name: string) returns (path: seq<nat>)
    requires name in ShapeTypes(shape)
    ensures ShapeAt(shape, path).Some? && Names(ShapeAt(shape, path).value, name)
    decreases shape
  {
    if shape.rawType.NoType? && shape.alternatives.List? {
      var k :| 0 <= k < |shape.alternatives.shapes| && name in ShapeTypes(shape.alternatives.shapes[k]);
      var below := NamedSomewhere(shape.alternatives.shapes[k], name);
      path := [k] + below;
      assert path[1..] == below;
    } else {
      path := [];
    }
  }

  lemma {:induction false} NamedIsType(shape: Shape, path: seq<nat>, name: string)
    requires ShapeAt(shape, path).Some? && Names(ShapeAt(shape, path).value, name)
    ensures name in ShapeTypes(shape)
    decreases |path|
  {
    if path != [] {
      NamedIsType(shape.alternatives.shapes[path[0]], path[1..], name);
    }
  }

  predicate Leads(spec: Spec, from: NodeId, component: string, to: NodeId) {
    from in spec.nodes && component in spec.nodes[from].entries && spec.nodes[from].entries[component] == to
  }

  /** Nodes from `from` to `to`, each the entry of the one before under the next component. */
  ghost predicate IsTrail(spec: Spec, components: seq<string>, trail: seq<NodeId>, from: NodeId, to: NodeId) {
    && |trail| == |components| + 1 && trail[0] == from && trail[|components|] == to
    && forall i, j :: 0 <= i < j < |trail| && j == i + 1 ==> Leads(spec, trail[i], components[i], trail[j])
  }

  /** A reference is followed to where its components lead, entry by entry. */
  lemma {:induction false} FollowsTrail(spec: Spec, from: NodeId, components: seq<string>, to: NodeId)
    requires spec.Closed() && from in spec.nodes
    ensures Follow(spec, from, components) == Some(to) <==> exists trail :: IsTrail(spec, components, trail, from, to)
    decreases |components|
  {
    if components == [] {
      if from == to {
        assert IsTrail(spec, components, [from], from, to);
      }
    } else {
      var entries := spec.nodes[from].entries;
      if components[0] in entries {
        var next := entries[components[0]];
        FollowsTrail(spec, next, components[1..], to);
        if trail :| IsTrail(spec, components[1..], trail, next, to) {
          LongerTrail(spec, components, trail, from, next, to);
        }
      }
      if trail :| IsTrail(spec, components, trail, from, to) {
        ShorterTrail(spec, components, trail, from, to);
      }
    }
  }

  lemma LongerTrail(spec: Spec, components: seq<string>, trail: seq<NodeId>, from: NodeId, next: NodeId, to: NodeId)
    requires components != [] && Leads(spec, from, components[0], next)
    requires IsTrail(spec, components[1..], trail, next, to)
    ensures IsTrail(spec, components, [from] + trail, from, to)
  {
    hide Leads;
    var longer := [from] + trail;
    forall i, j | 0 <= i < j < |longer| && j == i + 1 ensures Leads(spec, longer[i], components[i], longer[j]) {
      assert longer[j] == trail[i];
      if i > 0 {
        assert longer[i] == trail[i - 1] && components[i] == components[1..][i - 1];
      }
    }
  }

  lemma ShorterTrail(spec: Spec, components: seq<string>, trail: seq<NodeId>, from: NodeId, to: NodeId)
    requires components != [] && IsTrail(spec, components, trail, from, to)
    ensures Leads(spec, from, components[0], trail[1])
    ensures IsTrail(spec, components[1..], trail[1..], trail[1], to)
  {
    hide Leads;
    var shorter := trail[1..];
    forall i, j | 0 <= i < j < |shorter| && j == i + 1 ensures Leads(spec, shorter[i], components[1..][i], shorter[j]) {
      assert shorter[i] == trail[i + 1] && shorter[j] == trail[j + 1];
    }
  }

  // Reports of a faithful comparison.

  /** What a faithful comparison reports of a reachable pair is what breaks there. */
  lemma ReportedIsBroken(task: Task, changes: seq<Change>, p: Pair, what: Break)
    requires Faithful(task, changes) && task.Known(p) && Reachable(task.before, task.after, task.root, p)
    ensures task.ReportedIn(changes, p, what) <==> task.Breaks(p, what)
  {
    hide Reachable, IsBreak, Incompatible;
    if task.ReportedIn(changes, p, what) {
      var location :| task.At(location, p) && Change(location, what) in changes;
      assert task.Genuine(Change(location, what));
    }
    assert task.Reported(changes, p, what);
  }

  /** Types are reported exactly when both sides have some and the side relied upon has one the other lacks. */
  lemma TypesReportedIff(task: Task, changes: seq<Change>, p: Pair)
    requires Faithful(task, changes) && task.Known(p) && Reachable(task.before, task.after, task.root, p)
    ensures var o, n := task.before.nodes[p.0].Types(), task.after.nodes[p.1].Types();
      task.ReportedIn(changes, p, TypesChanged) <==>
        && o != {} && n != {}
        && if task.direction == Request then exists name :: name in o && name !in n
           else exists name :: name in n && name !in o
  {
    hide Faithful, Reachable;
    ReportedIsBroken(task, changes, p, TypesChanged);
  }

  /** An enum is reported exactly when both sides have one and the side relied upon has a value the other lacks. */
  lemma EnumReportedIff(task: Task, changes: seq<Change>, p: Pair)
    requires Faithful(task, changes) && task.Known(p) && Reachable(task.before, task.after, task.root, p)
    ensures var o, n := task.before.nodes[p.0].enumeration, task.after.nodes[p.1].enumeration;
      task.ReportedIn(changes, p, EnumNarrowed) <==>
        && o.Some? && n.Some?
        && if task.direction == Request then exists value :: value in o.value && value !in n.value
           else exists value :: value in n.value && value !in o.value
  {
    hide Faithful, Reachable;
    ReportedIsBroken(task, changes, p, EnumNarrowed);
    var o, n := task.before.nodes[p.0].enumeration, task.after.nodes[p.1].enumeration;
    if o.Some? && n.Some? {
      ElementsDiffer(o.value, n.value);
      ElementsDiffer(n.value, o.value);
    }
  }

  lemma ElementsDiffer<T>(s: seq<T>, t: seq<T>)
    ensures Elements(s) <= Elements(t) <==> !exists value :: value in s && value !in t
  {
    if Elements(s) <= Elements(t) {
      forall value | value in s ensures value in t {
        assert value in Elements(s);
      }
    }
  }

  /** A field is reported as removed exactly when the old side declares it and the new side does not. */
  lemma FieldReportedIff(task: Task, changes: seq<Change>, p: Pair, name: string)
    requires Faithful(task, changes) && task.Known(p) && Reachable(task.before, task.after, task.root, p)
    ensures var o, n := task.before.nodes[p.0].properties, task.after.nodes[p.1].properties;
      task.ReportedIn(changes, p, FieldRemoved(name)) <==>
        o.Declared? && name in o.fields && (n.Declared? ==> name !in n.fields)
  {
    hide Faithful, Reachable;
    ReportedIsBroken(task, changes, p, FieldRemoved(name));
  }

  /** A requirement is reported exactly when it is new in a request, or gone from a response, of declared properties. */
  lemma RequirementReportedIff(task: Task, changes: seq<Change>, p: Pair, name: string)
    requires Faithful(task, changes) && task.Known(p) && Reachable(task.before, task.after, task.root, p)
    ensures var o, n := task.before.nodes[p.0], task.after.nodes[p.1];
      && (task.ReportedIn(changes, p, NewRequired(name)) <==>
            task.direction == Request && o.properties.Declared? && name in n.required && name !in o.required)
      && (task.ReportedIn(changes, p, RequiredRemoved(name)) <==>
            task.direction == Response && o.properties.Declared? && name in o.required && name !in n.required)
  {
    hide Faithful, Reachable;
    ReportedIsBroken(task, changes, p, NewRequired(name));
    ReportedIsBroken(task, changes, p, RequiredRemoved(name));
  }

  /** Some value of the side relied upon fits its own bound and not the other side's. */
  ghost predicate Excludes(bound: Bound, source: real, target: real) {
    exists x: real :: Fits(bound, source, x) && !Fits(bound, target, x)
  }

  predicate Fits(bound: Bound, limit: real, x: real) {
    if bound in {Minimum, MinLength, MinItems} then limit <= x else x <= limit
  }

  /** A bound is reported exactly when both sides have it and it excludes a quantity the side relied upon allows. */
  lemma BoundReportedIff(task: Task, changes: seq<Change>, p: Pair, bound: Bound)
    requires Faithful(task, changes) && task.Known(p) && Reachable(task.before, task.after, task.root, p)
    ensures var o, n := task.before.nodes[p.0].bounds, task.after.nodes[p.1].bounds;
      task.ReportedIn(changes, p, BoundTightened(bound)) <==>
        && bound in o && bound in n
        && if task.direction == Request then Excludes(bound, o[bound], n[bound])
           else Excludes(bound, n[bound], o[bound])
  {
    hide Faithful, Reachable;
    ReportedIsBroken(task, changes, p, BoundTightened(bound));
    var o, n := task.before.nodes[p.0].bounds, task.after.nodes[p.1].bounds;
    if bound in o && bound in n {
      ExcludesMeaning(bound, o[bound], n[bound]);
      ExcludesMeaning(bound, n[bound], o[bound]);
    }
  }

  lemma ExcludesMeaning(bound: Bound, source: real, target: real)
    ensures Excludes(bound, source, target) <==> if bound.IsMinimum() then target > source else target < source
  {
    if if bound.IsMinimum() then target > source else target < source {
      assert Fits(bound, source, source) && !Fits(bound, target, source);
    }
  }

  /** A pattern is reported exactly when the two sides differ in it. */
  lemma PatternReportedIff(task: Task, changes: seq<Change>, p: Pair)
    requires Faithful(task, changes) && task.Known(p) && Reachable(task.before, task.after, task.root, p)
    ensures task.ReportedIn(changes, p, PatternChanged) <==>
      task.before.nodes[p.0].pattern != task.after.nodes[p.1].pattern
  {
    hide Faithful, Reachable;
    ReportedIsBroken(task, changes, p, PatternChanged);
  }

  /** The two nodes agree, except that the types and the enum may only have grown towards the side relying on them. */
  ghost predicate OnlyWidened(direction: Direction, o: Node, n: Node) {
    var source, target := if direction == Request then o else n, if direction == Request then n else o;
    && o.properties == n.properties && o.required == n.required && o.bounds == n.bounds && o.pattern == n.pattern
    && (forall name :: name in source.Types() ==> name in target.Types())
    && (source.enumeration.Some? && target.enumeration.Some? ==>
          forall value :: value in source.enumeration.value ==> value in target.enumeration.value)
  }

  /** Added request types or enum values, and removed response ones, are never reported. */
  lemma WideningIsSilent(task: Task, changes: seq<Change>, p: Pair, location: seq<Step>, what: Break)
    requires Faithful(task, changes) && task.Known(p) && task.At(location, p)
    requires OnlyWidened(task.direction, task.before.nodes[p.0], task.after.nodes[p.1])
    ensures Change(location, what) !in changes
  {
    task.PairIsReachable(location, p);
    hide Faithful, Reachable, Walk;
    assert Change(location, what) in changes ==> task.ReportedIn(changes, p, what);
    match what
    case TypesChanged => TypesReportedIff(task, changes, p);
    case EnumNarrowed => EnumReportedIff(task, changes, p);
    case NewRequired(name) => RequirementReportedIff(task, changes, p, name);
    case RequiredRemoved(name) => RequirementReportedIff(task, changes, p, name);
    case FieldRemoved(name) => FieldReportedIff(task, changes, p, name);
    case BoundTightened(bound) => BoundReportedIff(task, changes, p, bound);
    case PatternChanged => PatternReportedIff(task, changes, p);
  }
}
