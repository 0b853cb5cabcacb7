/**
 * What a silent gate means for instances.  Validity follows JSON Schema
 * Validation 2020-12, sections 6.1.1 (type), 6.1.2 (enum), 6.2.2 and 6.2.4
 * (maximum and minimum), 6.3 (strings), 6.4 (arrays) and 6.5.3 (required),
 * on cyclic schemas, by recursion on the instance.
 */
module OpenApiSoundness {
  import opened Sequences
  import opened OpenApiSchema

  /** Whether a text matches a pattern; regular expressions stay abstract. */
  type Matcher = (string, string) -> bool

  // Validity of an instance.

  function AsNumber(v: Json): Option<real> {
    match v
    case Int(n) => Some(n as real)
    case Float(r) => Some(r)
    case _ => None
  }

  predicate TypeAccepts(name: string, v: Json) {
    match v
    case Null => name == "null"
    case Bool(_) => name == "boolean"
    case Int(_) => name == "integer" || name == "number"
    case Float(r) => name == "number" || (name == "integer" && r.Floor as real == r)
    case Str(_) => name == "string"
    case Arr(_) => name == "array"
    case Obj(_) => name == "object"
  }

  predicate RawTypeAccepts(raw: RawType, v: Json) {
    match raw
    case NoType => true
    case OneType(name) => TypeAccepts(name, v)
    case ManyTypes(names) => exists name :: name in names && TypeAccepts(name, v)
  }

  /** Equality of instances: numbers compare by value. */
  predicate SameJson(v: Json, w: Json)
    decreases v
  {
    if AsNumber(v).Some? || AsNumber(w).Some? then AsNumber(v) == AsNumber(w)
    else
      match v
      case Arr(elements) =>
        w.Arr? && |elements| == |w.elements|
        && forall i :: 0 <= i < |elements| ==> SameJson(elements[i], w.elements[i])
      case Obj(fields) =>
        w.Obj? && fields.Keys == w.fields.Keys
        && forall name :: name in fields ==> SameJson(fields[name], w.fields[name])
      case _ => v == w
  }

  /** The quantity a bound keyword constrains, for the instances it applies to. */
  function Measured(bound: Bound, v: Json): Option<real> {
    match bound
    case Minimum => AsNumber(v)
    case Maximum => AsNumber(v)
    case MinLength => if v.Str? then Some(|v.text| as real) else None
    case MaxLength => if v.Str? then Some(|v.text| as real) else None
    case MinItems => if v.Arr? then Some(|v.elements| as real) else None
    case MaxItems => if v.Arr? then Some(|v.elements| as real) else None
  }

  predicate BoundAccepts(bound: Bound, limit: real, v: Json) {
    var measured := Measured(bound, v);
    measured.Some? ==> if bound.IsMinimum() then measured.value >= limit else measured.value <= limit
  }

  /** The keywords of one schema that look at the instance alone. */
  ghost predicate KeywordsAccept(matches: Matcher, node: Node, v: Json) {
    && RawTypeAccepts(node.rawType, v)
    && (node.enumeration.Some? ==> exists w :: w in node.enumeration.value && SameJson(v, w))
    && (forall bound :: bound in node.bounds ==> BoundAccepts(bound, node.bounds[bound], v))
    && (node.pattern.Some? && v.Str? ==> matches(node.pattern.value, v.text))
    && (v.Obj? ==> node.required <= v.fields.Keys)
  }

  /** Valid under the schema's own keywords and under those of the schema it refers to. */
  ghost predicate Valid(matches: Matcher, spec: Spec, schema: NodeId, v: Json)
    requires spec.Closed() && schema in spec.nodes
    decreases v, 1
  {
    ValidAt(matches, spec, schema, v) && ValidAt(matches, spec, Resolve(spec, schema), v)
  }

  ghost predicate ValidAt(matches: Matcher, spec: Spec, schema: NodeId, v: Json)
    requires spec.Closed() && schema in spec.nodes
    decreases v, 0
  {
    var node := spec.nodes[schema];
    && KeywordsAccept(matches, node, v)
    && (v.Obj? ==> forall name :: name in node.Fields() && name in v.fields ==>
          Valid(matches, spec, node.Fields()[name], v.fields[name]))
    && (v.Arr? && node.items.Some? ==> forall i :: 0 <= i < |v.elements| ==>
          Valid(matches, spec, node.items.value, v.elements[i]))
  }

  // The fragment in which the gate sees everything that matters.

  /** A reference carries no keyword of its own and does not lead to another reference. */
  predicate OneHop(spec: Spec)
    requires spec.Closed()
  {
    forall schema :: schema in spec.nodes && spec.nodes[schema].reference.Some? ==>
      && Bare(spec.nodes[schema])
      && spec.nodes[Resolve(spec, schema)].reference.None?
  }

  predicate Bare(node: Node) {
    && node.rawType.NoType? && node.enumeration.None? && node.Fields() == map[] && node.required == {}
    && node.alternatives.NoList? && node.items.None? && node.bounds == map[] && node.pattern.None?
  }

  /** The schema the instance is known to satisfy, and the one it must still satisfy. */
  function Source(direction: Direction, before: Node, after: Node): Node {
    if direction == Request then before else after
  }

  function Target(direction: Direction, before: Node, after: Node): Node {
    if direction == Request then after else before
  }

  /** No anyOf or oneOf, and the target uses no keyword that the source lacks. */
  predicate NothingAdded(direction: Direction, before: Node, after: Node) {
    var source, target := Source(direction, before, after), Target(direction, before, after);
    && before.alternatives.NoList? && after.alternatives.NoList?
    && (!target.rawType.NoType? ==> !source.rawType.NoType? && target.Types() != {})
    && (target.enumeration.Some? ==> source.enumeration.Some?)
    && target.bounds.Keys <= source.bounds.Keys
    && (target.required <= source.required || before.properties.Declared?)
    && (target.items.Some? ==> source.items.Some?)
  }

  ghost predicate InFragment(direction: Direction, before: Spec, after: Spec, root: Pair)
    requires before.Closed() && after.Closed() && PairOf(before, after, root)
  {
    && OneHop(before) && OneHop(after)
    && forall q :: PairOf(before, after, q) && Reachable(before, after, root, q) ==>
         NothingAdded(direction, before.nodes[q.0], after.nodes[q.1])
  }

  /** The instance holds no field that the new schema declares and the old one does not. */
  ghost predicate UsesOldFields(before: Spec, after: Spec, p: Pair, v: Json)
    requires before.Closed() && after.Closed() && PairOf(before, after, p)
    decreases v
  {
    && (v.Obj? ==> forall name :: name in v.fields && name in after.nodes[p.1].Fields() ==>
          && name in before.nodes[p.0].Fields()
          && UsesOldFields(before, after, Next(before, after, p, Field(name)).value, v.fields[name]))
    && (v.Arr? && Next(before, after, p, Item).Some? ==> forall i :: 0 <= i < |v.elements| ==>
          UsesOldFields(before, after, Next(before, after, p, Item).value, v.elements[i]))
  }

  // One pair.

  ghost predicate NoBreak(direction: Direction, before: Node, after: Node) {
    forall what :: !IsBreak(direction, before, after, what)
  }

  /** The keywords of the target that the source lacks accept the instance. */
  ghost predicate AddedKeywordsAccept(matches: Matcher, source: Node, target: Node, v: Json) {
    && (!target.rawType.NoType? && (source.rawType.NoType? || target.Types() == {}) ==>
          RawTypeAccepts(target.rawType, v))
    && (target.enumeration.Some? && source.enumeration.None? ==>
          exists w :: w in target.enumeration.value && SameJson(v, w))
    && (forall bound :: bound in target.bounds && bound !in source.bounds ==>
          BoundAccepts(bound, target.bounds[bound], v))
    && (v.Obj? ==> target.required - source.required <= v.fields.Keys)
  }

  lemma TypeStaysAccepted(direction: Direction, before: Node, after: Node, v: Json)
    requires NoBreak(direction, before, after)
    requires var source, target := Source(direction, before, after), Target(direction, before, after);
      !target.rawType.NoType? ==> !source.rawType.NoType? && target.Types() != {}
    requires RawTypeAccepts(Source(direction, before, after).rawType, v)
    ensures RawTypeAccepts(Target(direction, before, after).rawType, v)
  {
    var source, target := Source(direction, before, after), Target(direction, before, after);
    assert !IsBreak(direction, before, after, TypesChanged);
    if !target.rawType.NoType? {
      var name := AcceptedName(source, v);
      assert name in target.Types();
    }
  }

  lemma AcceptedName(node: Node, v: Json) returns (name: string)
    requires !node.rawType.NoType? && RawTypeAccepts(node.rawType, v)
    ensures name in node.Types() && TypeAccepts(name, v)
  {
    match node.rawType
    case OneType(only) => name := only;
    case ManyTypes(names) => name :| name in names && TypeAccepts(name, v);
    case NoType =>
  }

  lemma EnumStaysAccepted(direction: Direction, before: Node, after: Node, v: Json)
    requires NoBreak(direction, before, after)
    requires Source(direction, before, after).enumeration.Some?
    requires exists w :: w in Source(direction, before, after).enumeration.value && SameJson(v, w)
    ensures var target := Target(direction, before, after).enumeration;
      target.Some? ==> exists w :: w in target.value && SameJson(v, w)
  {
    hide SameJson;
    var source, target := Source(direction, before, after).enumeration, Target(direction, before, after).enumeration;
    assert !IsBreak(direction, before, after, EnumNarrowed);
    if target.Some? {
      var w :| w in source.value && SameJson(v, w);
      assert w in Elements(source.value);
      assert w in Elements(target.value);
    }
  }

  lemma BoundStaysAccepted(direction: Direction, before: Node, after: Node, bound: Bound, v: Json)
    requires NoBreak(direction, before, after)
    requires bound in Source(direction, before, after).bounds && bound in Target(direction, before, after).bounds
    requires BoundAccepts(bound, Source(direction, before, after).bounds[bound], v)
    ensures BoundAccepts(bound, Target(direction, before, after).bounds[bound], v)
  {
    assert !IsBreak(direction, before, after, BoundTightened(bound));
  }

  /** Where the gate sees no break, the target's keywords ask for exactly what the source's did and the added ones. */
  lemma AddedKeywordsDecide(matches: Matcher, direction: Direction, before: Node, after: Node, v: Json)
    requires NoBreak(direction, before, after)
    requires KeywordsAccept(matches, Source(direction, before, after), v)
    ensures var source, target := Source(direction, before, after), Target(direction, before, after);
      KeywordsAccept(matches, target, v) <==> AddedKeywordsAccept(matches, source, target, v)
  {
    hide BoundAccepts, SameJson, RawTypeAccepts;
    var source, target := Source(direction, before, after), Target(direction, before, after);
    assert !IsBreak(direction, before, after, PatternChanged);
    if AddedKeywordsAccept(matches, source, target, v) {
      if !target.rawType.NoType? ==> !source.rawType.NoType? && target.Types() != {} {
        TypeStaysAccepted(direction, before, after, v);
      }
      if source.enumeration.Some? {
        EnumStaysAccepted(direction, before, after, v);
      }
      forall bound | bound in target.bounds ensures BoundAccepts(bound, target.bounds[bound], v) {
        if bound in source.bounds {
          BoundStaysAccepted(direction, before, after, bound, v);
        }
      }
    }
  }

  lemma RequiredStaysPresent(direction: Direction, before: Node, after: Node)
    requires NoBreak(direction, before, after) && NothingAdded(direction, before, after)
    ensures Target(direction, before, after).required <= Source(direction, before, after).required
  {
    var source, target := Source(direction, before, after), Target(direction, before, after);
    forall name | name in target.required ensures name in source.required {
      assert !IsBreak(direction, before, after, NewRequired(name));
      assert !IsBreak(direction, before, after, RequiredRemoved(name));
    }
  }

  lemma NothingAddedAccepts(matches: Matcher, direction: Direction, before: Node, after: Node, v: Json)
    requires NoBreak(direction, before, after) && NothingAdded(direction, before, after)
    requires v.Obj? ==> Source(direction, before, after).required <= v.fields.Keys
    ensures AddedKeywordsAccept(matches, Source(direction, before, after), Target(direction, before, after), v)
  {
    hide NoBreak, BoundAccepts, SameJson, RawTypeAccepts;
    RequiredStaysPresent(direction, before, after);
  }

  lemma KeywordsStayAccepted(matches: Matcher, direction: Direction, before: Node, after: Node, v: Json)
    requires NoBreak(direction, before, after) && NothingAdded(direction, before, after)
    requires KeywordsAccept(matches, Source(direction, before, after), v)
    ensures KeywordsAccept(matches, Target(direction, before, after), v)
  {
    hide NoBreak, NothingAdded, AddedKeywordsAccept;
    AddedKeywordsDecide(matches, direction, before, after, v);
    NothingAddedAccepts(matches, direction, before, after, v);
  }

  // What only the target asks of an instance, at every place the instance reaches.

  function SourceSpec(direction: Direction, before: Spec, after: Spec): Spec {
    if direction == Request then before else after
  }

  function TargetSpec(direction: Direction, before: Spec, after: Spec): Spec {
    if direction == Request then after else before
  }

  function SourceId(direction: Direction, p: Pair): NodeId {
    if direction == Request then p.0 else p.1
  }

  function TargetId(direction: Direction, p: Pair): NodeId {
    if direction == Request then p.1 else p.0
  }

  function SourceNode(direction: Direction, before: Spec, after: Spec, p: Pair): Node
    requires PairOf(before, after, p)
  {
    Source(direction, before.nodes[p.0], after.nodes[p.1])
  }

  function TargetNode(direction: Direction, before: Spec, after: Spec, p: Pair): Node
    requires PairOf(before, after, p)
  {
    Target(direction, before.nodes[p.0], after.nodes[p.1])
  }

  /** What only the target asks of an instance: beside a reference, in added keywords, and further down. */
  ghost predicate AddedAccepts(matches: Matcher, direction: Direction, before: Spec, after: Spec, q: Pair, v: Json)
    requires before.Closed() && after.Closed() && PairOf(before, after, q)
    decreases v, 2
  {
    var spec, schema := TargetSpec(direction, before, after), TargetId(direction, q);
    && (Resolve(spec, schema) != schema ==> ValidAt(matches, spec, schema, v))
    && AddedAt(matches, direction, before, after, Resolved(before, after, q), v)
  }

  ghost predicate AddedAt(matches: Matcher, direction: Direction, before: Spec, after: Spec, p: Pair, v: Json)
    requires before.Closed() && after.Closed() && PairOf(before, after, p)
    decreases v, 1
  {
    var source, target := SourceNode(direction, before, after, p), TargetNode(direction, before, after, p);
    && AddedKeywordsAccept(matches, source, target, v)
    && (v.Obj? ==> forall name :: name in target.Fields() && name in v.fields ==>
          FieldAccepts(matches, direction, before, after, p, name, v))
    && (v.Arr? && target.items.Some? ==> forall i :: 0 <= i < |v.elements| ==>
          ElementAccepts(matches, direction, before, after, p, i, v))
  }

  /** A field only the target declares must be valid there; a common one must satisfy what is added below it. */
  ghost predicate FieldAccepts(matches: Matcher, direction: Direction, before: Spec, after: Spec, p: Pair,
                               name: string, v: Json)
    requires before.Closed() && after.Closed() && PairOf(before, after, p)
    requires v.Obj? && name in v.fields && name in TargetNode(direction, before, after, p).Fields()
    decreases v, 0
  {
    if name in SourceNode(direction, before, after, p).Fields() then
      AddedAccepts(matches, direction, before, after,
                   (before.nodes[p.0].Fields()[name], after.nodes[p.1].Fields()[name]), v.fields[name])
    else
      Valid(matches, TargetSpec(direction, before, after), TargetNode(direction, before, after, p).Fields()[name],
            v.fields[name])
  }

  ghost predicate ElementAccepts(matches: Matcher, direction: Direction, before: Spec, after: Spec, p: Pair, i: nat,
                                 v: Json)
    requires before.Closed() && after.Closed() && PairOf(before, after, p)
    requires v.Arr? && i < |v.elements| && TargetNode(direction, before, after, p).items.Some?
    decreases v, 0
  {
    if SourceNode(direction, before, after, p).items.Some? then
      AddedAccepts(matches, direction, before, after, (before.nodes[p.0].items.value, after.nodes[p.1].items.value),
                   v.elements[i])
    else
      Valid(matches, TargetSpec(direction, before, after), TargetNode(direction, before, after, p).items.value,
            v.elements[i])
  }

  /** The situation at one reachable pair of a comparison that reported nothing. */
  ghost predicate Quiet(direction: Direction, before: Spec, after: Spec, root: Pair, p: Pair)
    requires before.Closed() && after.Closed() && PairOf(before, after, root)
  {
    && PairOf(before, after, p)
    && Reachable(before, after, root, p)
    && !Incompatible(direction, before, after, root)
  }

  lemma QuietPair(direction: Direction, before: Spec, after: Spec, root: Pair, p: Pair)
    requires before.Closed() && after.Closed() && PairOf(before, after, root)
    requires Quiet(direction, before, after, root, p)
    ensures NoBreak(direction, before.nodes[p.0], after.nodes[p.1])
  {
    hide IsBreak, Reachable;
  }

  lemma ReachableStep(before: Spec, after: Spec, root: Pair, p: Pair, step: Step)
    requires before.Closed() && after.Closed() && PairOf(before, after, root) && PairOf(before, after, p)
    requires Reachable(before, after, root, p) && Next(before, after, p, step).Some?
    ensures Reachable(before, after, root, Next(before, after, p, step).value)
  {
    var location :| Walk(before, after, root, location) == Some(p);
    hide Next;
    assert (location + [step])[..|location|] == location;
    assert Walk(before, after, root, location + [step]) == Next(before, after, p, step);
  }

  lemma QuietStep(direction: Direction, before: Spec, after: Spec, root: Pair, p: Pair, step: Step)
    requires before.Closed() && after.Closed() && PairOf(before, after, root)
    requires Quiet(direction, before, after, root, p) && Next(before, after, p, step).Some?
    ensures Quiet(direction, before, after, root, Next(before, after, p, step).value)
  {
    hide Reachable, Incompatible;
    ReachableStep(before, after, root, p, step);
  }

  lemma ValidUnfolds(matches: Matcher, spec: Spec, schema: NodeId, v: Json)
    requires spec.Closed() && schema in spec.nodes
    ensures Valid(matches, spec, schema, v) <==>
      && (Resolve(spec, schema) != schema ==> ValidAt(matches, spec, schema, v))
      && ValidAt(matches, spec, Resolve(spec, schema), v)
  {
    hide ValidAt, Resolve;
  }

  lemma AddedUnfolds(matches: Matcher, direction: Direction, before: Spec, after: Spec, q: Pair, v: Json)
    requires before.Closed() && after.Closed() && PairOf(before, after, q)
    ensures var spec := SourceSpec(direction, before, after); spec.Closed() && SourceId(direction, q) in spec.nodes
    ensures var spec := TargetSpec(direction, before, after); spec.Closed() && TargetId(direction, q) in spec.nodes
    ensures var spec, schema := TargetSpec(direction, before, after), TargetId(direction, q);
      AddedAccepts(matches, direction, before, after, q, v) <==>
      && (Resolve(spec, schema) != schema ==> ValidAt(matches, spec, schema, v))
      && AddedAt(matches, direction, before, after, Resolved(before, after, q), v)
    ensures TargetId(direction, Resolved(before, after, q))
         == Resolve(TargetSpec(direction, before, after), TargetId(direction, q))
    ensures SourceId(direction, Resolved(before, after, q))
         == Resolve(SourceSpec(direction, before, after), SourceId(direction, q))
  {
    hide ValidAt, AddedAt, Resolve;
  }

  /**
   * After a silent comparison, an instance valid on the source side is valid on the target side
   * exactly when it satisfies what only the target asks, by induction on the instance.
   */
  lemma {:induction false} AddedDecides(matches: Matcher, direction: Direction, before: Spec, after: Spec, root: Pair,
                                        q: Pair, v: Json)
    requires before.Closed() && after.Closed() && PairOf(before, after, root) && PairOf(before, after, q)
    requires Quiet(direction, before, after, root, Resolved(before, after, q))
    requires Valid(matches, SourceSpec(direction, before, after), SourceId(direction, q), v)
    ensures Valid(matches, TargetSpec(direction, before, after), TargetId(direction, q), v)
       <==> AddedAccepts(matches, direction, before, after, q, v)
    decreases v, 2
  {
    hide *;
    AddedUnfolds(matches, direction, before, after, q, v);
    ValidUnfolds(matches, SourceSpec(direction, before, after), SourceId(direction, q), v);
    ValidUnfolds(matches, TargetSpec(direction, before, after), TargetId(direction, q), v);
    AddedDecidesAt(matches, direction, before, after, root, Resolved(before, after, q), v);
  }

  lemma {:induction false} AddedDecidesAt(matches: Matcher, direction: Direction, before: Spec, after: Spec, root: Pair,
                                          p: Pair, v: Json)
    requires before.Closed() && after.Closed() && PairOf(before, after, root) && PairOf(before, after, p)
    requires Quiet(direction, before, after, root, p)
    requires ValidAt(matches, SourceSpec(direction, before, after), SourceId(direction, p), v)
    ensures ValidAt(matches, TargetSpec(direction, before, after), TargetId(direction, p), v)
       <==> AddedAt(matches, direction, before, after, p, v)
    decreases v, 1
  {
    var target := TargetNode(direction, before, after, p);
    hide Quiet, Resolve, KeywordsAccept, AddedKeywordsAccept, NoBreak, Valid, FieldAccepts, ElementAccepts;
    QuietPair(direction, before, after, root, p);
    AddedKeywordsDecide(matches, direction, before.nodes[p.0], after.nodes[p.1], v);
    if v.Obj? {
      forall name | name in target.Fields() && name in v.fields
        ensures Valid(matches, TargetSpec(direction, before, after), target.Fields()[name], v.fields[name])
           <==> FieldAccepts(matches, direction, before, after, p, name, v)
      {
        FieldDecides(matches, direction, before, after, root, p, name, v);
      }
    }
    if v.Arr? && target.items.Some? {
      forall i | 0 <= i < |v.elements|
        ensures Valid(matches, TargetSpec(direction, before, after), target.items.value, v.elements[i])
           <==> ElementAccepts(matches, direction, before, after, p, i, v)
      {
        ElementDecides(matches, direction, before, after, root, p, i, v);
      }
    }
  }

  lemma {:induction false} FieldDecides(matches: Matcher, direction: Direction, before: Spec, after: Spec, root: Pair,
                                        p: Pair, name: string, v: Json)
    requires before.Closed() && after.Closed() && PairOf(before, after, root) && PairOf(before, after, p)
    requires Quiet(direction, before, after, root, p)
    requires ValidAt(matches, SourceSpec(direction, before, after), SourceId(direction, p), v)
    requires v.Obj? && name in v.fields && name in TargetNode(direction, before, after, p).Fields()
    ensures TargetNode(direction, before, after, p).Fields()[name] in TargetSpec(direction, before, after).nodes
    ensures Valid(matches, TargetSpec(direction, before, after), TargetNode(direction, before, after, p).Fields()[name],
                  v.fields[name])
       <==> FieldAccepts(matches, direction, before, after, p, name, v)
    decreases v, 0
  {
    hide Quiet, Resolve, KeywordsAccept, Valid, AddedAccepts;
    if name in SourceNode(direction, before, after, p).Fields() {
      QuietStep(direction, before, after, root, p, Field(name));
      AddedDecides(matches, direction, before, after, root,
                   (before.nodes[p.0].Fields()[name], after.nodes[p.1].Fields()[name]), v.fields[name]);
    }
  }

  lemma {:induction false} ElementDecides(matches: Matcher, direction: Direction, before: Spec, after: Spec, root: Pair,
                                          p: Pair, i: nat, v: Json)
    requires before.Closed() && after.Closed() && PairOf(before, after, root) && PairOf(before, after, p)
    requires Quiet(direction, before, after, root, p)
    requires ValidAt(matches, SourceSpec(direction, before, after), SourceId(direction, p), v)
    requires v.Arr? && i < |v.elements| && TargetNode(direction, before, after, p).items.Some?
    ensures TargetNode(direction, before, after, p).items.value in TargetSpec(direction, before, after).nodes
    ensures Valid(matches, TargetSpec(direction, before, after), TargetNode(direction, before, after, p).items.value,
                  v.elements[i])
       <==> ElementAccepts(matches, direction, before, after, p, i, v)
    decreases v, 0
  {
    hide Quiet, Resolve, KeywordsAccept, Valid, AddedAccepts;
    if SourceNode(direction, before, after, p).items.Some? {
      QuietStep(direction, before, after, root, p, Item);
      AddedDecides(matches, direction, before, after, root,
                   (before.nodes[p.0].items.value, after.nodes[p.1].items.value), v.elements[i]);
    }
  }

  /**
   * The exact reach of a silent gate, for every document and every instance: what the source side
   * accepts is accepted by the target side if and only if what only the target asks accepts it.
   */
  lemma SilentGateDecides(matches: Matcher, direction: Direction, before: Spec, after: Spec, q: Pair, v: Json)
    requires before.Closed() && after.Closed() && PairOf(before, after, q)
    requires !Incompatible(direction, before, after, Resolved(before, after, q))
    requires Valid(matches, SourceSpec(direction, before, after), SourceId(direction, q), v)
    ensures Valid(matches, TargetSpec(direction, before, after), TargetId(direction, q), v)
       <==> AddedAccepts(matches, direction, before, after, q, v)
  {
    var root := Resolved(before, after, q);
    assert Walk(before, after, root, []) == Some(root);
    hide Valid, AddedAccepts, Resolved;
    AddedDecides(matches, direction, before, after, root, q, v);
  }

  // Inside the fragment.

  /** A bare reference adds nothing of its own. */
  lemma BareAccepts(matches: Matcher, spec: Spec, schema: NodeId, v: Json)
    requires spec.Closed() && schema in spec.nodes && OneHop(spec) && Resolve(spec, schema) != schema
    ensures ValidAt(matches, spec, schema, v)
  {
    var node := spec.nodes[schema];
    assert Bare(node);
    assert KeywordsAccept(matches, node, v);
  }

  /** The same inside the fragment. */
  ghost predicate Silent(direction: Direction, before: Spec, after: Spec, root: Pair, p: Pair)
    requires before.Closed() && after.Closed() && PairOf(before, after, root)
  {
    && PairOf(before, after, p)
    && Reachable(before, after, root, p)
    && InFragment(direction, before, after, root)
    && !Incompatible(direction, before, after, root)
  }

  lemma SilentPair(direction: Direction, before: Spec, after: Spec, root: Pair, p: Pair)
    requires before.Closed() && after.Closed() && PairOf(before, after, root)
    requires Silent(direction, before, after, root, p)
    ensures NoBreak(direction, before.nodes[p.0], after.nodes[p.1])
    ensures NothingAdded(direction, before.nodes[p.0], after.nodes[p.1])
    ensures OneHop(before) && OneHop(after)
  {
    hide IsBreak, NothingAdded, Reachable, OneHop;
  }

  lemma SilentStep(direction: Direction, before: Spec, after: Spec, root: Pair, p: Pair, step: Step)
    requires before.Closed() && after.Closed() && PairOf(before, after, root)
    requires Silent(direction, before, after, root, p) && Next(before, after, p, step).Some?
    ensures Silent(direction, before, after, root, Next(before, after, p, step).value)
  {
    hide Reachable, InFragment, Incompatible;
    ReachableStep(before, after, root, p, step);
  }

  lemma ItemsStayDeclared(direction: Direction, before: Node, after: Node)
    requires NothingAdded(direction, before, after)
    ensures Target(direction, before, after).items.Some? ==> before.items.Some? && after.items.Some?
  {
  }

  lemma FieldsStayDeclared(direction: Direction, before: Node, after: Node, name: string)
    requires NoBreak(direction, before, after) && name in before.Fields()
    ensures name in after.Fields()
  {
    assert !IsBreak(direction, before, after, FieldRemoved(name));
  }

  lemma SilentIsQuiet(direction: Direction, before: Spec, after: Spec, root: Pair, p: Pair)
    requires before.Closed() && after.Closed() && PairOf(before, after, root)
    requires Silent(direction, before, after, root, p)
    ensures Quiet(direction, before, after, root, p)
  {
    hide Reachable, Incompatible, InFragment;
  }

  /** What the instance may use for the fragment to cover it: in requests, only old fields. */
  ghost predicate Covered(direction: Direction, before: Spec, after: Spec, p: Pair, v: Json)
    requires before.Closed() && after.Closed() && PairOf(before, after, p)
  {
    direction == Request ==> UsesOldFields(before, after, p, v)
  }

  /** Inside the fragment the target asks for nothing more, by induction on the instance. */
  lemma {:induction false} NothingAddedBelow(matches: Matcher, direction: Direction, before: Spec, after: Spec,
                                             root: Pair, q: Pair, v: Json)
    requires before.Closed() && after.Closed() && PairOf(before, after, root) && PairOf(before, after, q)
    requires Silent(direction, before, after, root, Resolved(before, after, q))
    requires Covered(direction, before, after, Resolved(before, after, q), v)
    requires Valid(matches, SourceSpec(direction, before, after), SourceId(direction, q), v)
    ensures AddedAccepts(matches, direction, before, after, q, v)
    decreases v, 2
  {
    var p := Resolved(before, after, q);
    var spec, schema := TargetSpec(direction, before, after), TargetId(direction, q);
    SilentPair(direction, before, after, root, p);
    assert OneHop(spec);
    hide *;
    AddedUnfolds(matches, direction, before, after, q, v);
    ValidUnfolds(matches, SourceSpec(direction, before, after), SourceId(direction, q), v);
    NothingAddedAt(matches, direction, before, after, root, p, v);
    if Resolve(spec, schema) != schema {
      BareAccepts(matches, spec, schema, v);
    }
  }

  lemma {:induction false} NothingAddedAt(matches: Matcher, direction: Direction, before: Spec, after: Spec, root: Pair,
                                          p: Pair, v: Json)
    requires before.Closed() && after.Closed() && PairOf(before, after, root) && PairOf(before, after, p)
    requires Silent(direction, before, after, root, p) && Covered(direction, before, after, p, v)
    requires ValidAt(matches, SourceSpec(direction, before, after), SourceId(direction, p), v)
    ensures AddedAt(matches, direction, before, after, p, v)
    decreases v, 1
  {
    var target := TargetNode(direction, before, after, p);
    assert KeywordsAccept(matches, SourceNode(direction, before, after, p), v);
    hide Silent, Resolve, AddedKeywordsAccept, NoBreak, NothingAdded, OneHop, Valid, FieldAccepts, ElementAccepts,
      Covered, ValidAt;
    SilentPair(direction, before, after, root, p);
    NothingAddedAccepts(matches, direction, before.nodes[p.0], after.nodes[p.1], v);
    if v.Obj? {
      forall name | name in target.Fields() && name in v.fields
        ensures FieldAccepts(matches, direction, before, after, p, name, v)
      {
        NothingAddedInField(matches, direction, before, after, root, p, name, v);
      }
    }
    if v.Arr? && target.items.Some? {
      forall i | 0 <= i < |v.elements| ensures ElementAccepts(matches, direction, before, after, p, i, v) {
        NothingAddedInElement(matches, direction, before, after, root, p, i, v);
      }
    }
  }

  lemma {:induction false} NothingAddedInField(matches: Matcher, direction: Direction, before: Spec, after: Spec,
                                               root: Pair, p: Pair, name: string, v: Json)
    requires before.Closed() && after.Closed() && PairOf(before, after, root) && PairOf(before, after, p)
    requires Silent(direction, before, after, root, p) && Covered(direction, before, after, p, v)
    requires ValidAt(matches, SourceSpec(direction, before, after), SourceId(direction, p), v)
    requires v.Obj? && name in v.fields && name in TargetNode(direction, before, after, p).Fields()
    ensures FieldAccepts(matches, direction, before, after, p, name, v)
    decreases v, 0
  {
    hide Silent, Resolve, KeywordsAccept, NoBreak, NothingAdded, OneHop, Valid, AddedAccepts;
    SilentPair(direction, before, after, root, p);
    if direction == Response {
      FieldsStayDeclared(direction, before.nodes[p.0], after.nodes[p.1], name);
    }
    SilentStep(direction, before, after, root, p, Field(name));
    NothingAddedBelow(matches, direction, before, after, root,
                      (before.nodes[p.0].Fields()[name], after.nodes[p.1].Fields()[name]), v.fields[name]);
  }

  lemma {:induction false} NothingAddedInElement(matches: Matcher, direction: Direction, before: Spec, after: Spec,
                                                 root: Pair, p: Pair, i: nat, v: Json)
    requires before.Closed() && after.Closed() && PairOf(before, after, root) && PairOf(before, after, p)
    requires Silent(direction, before, after, root, p) && Covered(direction, before, after, p, v)
    requires ValidAt(matches, SourceSpec(direction, before, after), SourceId(direction, p), v)
    requires v.Arr? && i < |v.elements| && TargetNode(direction, before, after, p).items.Some?
    ensures ElementAccepts(matches, direction, before, after, p, i, v)
    decreases v, 0
  {
    hide Silent, Resolve, KeywordsAccept, NoBreak, NothingAdded, OneHop, Valid, AddedAccepts;
    SilentPair(direction, before, after, root, p);
    ItemsStayDeclared(direction, before.nodes[p.0], after.nodes[p.1]);
    SilentStep(direction, before, after, root, p, Item);
    NothingAddedBelow(matches, direction, before, after, root,
                      (before.nodes[p.0].items.value, after.nodes[p.1].items.value), v.elements[i]);
  }

  /** Inside the fragment, what the source side accepts the target side accepts. */
  lemma FragmentSound(matches: Matcher, direction: Direction, before: Spec, after: Spec, root: Pair, q: Pair, v: Json)
    requires before.Closed() && after.Closed() && PairOf(before, after, root) && PairOf(before, after, q)
    requires Silent(direction, before, after, root, Resolved(before, after, q))
    requires Covered(direction, before, after, Resolved(before, after, q), v)
    requires Valid(matches, SourceSpec(direction, before, after), SourceId(direction, q), v)
    ensures Valid(matches, TargetSpec(direction, before, after), TargetId(direction, q), v)
  {
    hide *;
    SilentIsQuiet(direction, before, after, root, Resolved(before, after, q));
    AddedUnfolds(matches, direction, before, after, q, v);
    AddedDecides(matches, direction, before, after, root, q, v);
    NothingAddedBelow(matches, direction, before, after, root, q, v);
  }

  /** What is valid under the old schema stays valid under the new one. */
  lemma RequestSound(matches: Matcher, before: Spec, after: Spec, root: Pair, o: NodeId, n: NodeId, v: Json)
    requires before.Closed() && after.Closed() && PairOf(before, after, root) && PairOf(before, after, (o, n))
    requires Silent(Request, before, after, root, Resolved(before, after, (o, n)))
    requires UsesOldFields(before, after, Resolved(before, after, (o, n)), v)
    requires Valid(matches, before, o, v)
    ensures Valid(matches, after, n, v)
  {
    hide Silent, UsesOldFields, Valid, Resolved;
    FragmentSound(matches, Request, before, after, root, (o, n), v);
  }

  /** What is valid under the new schema is valid under the old one. */
  lemma ResponseSound(matches: Matcher, before: Spec, after: Spec, root: Pair, o: NodeId, n: NodeId, v: Json)
    requires before.Closed() && after.Closed() && PairOf(before, after, root) && PairOf(before, after, (o, n))
    requires Silent(Response, before, after, root, Resolved(before, after, (o, n)))
    requires Valid(matches, after, n, v)
    ensures Valid(matches, before, o, v)
  {
    hide Silent, UsesOldFields, Valid, Resolved;
    FragmentSound(matches, Response, before, after, root, (o, n), v);
  }

  lemma StartIsSilent(direction: Direction, before: Spec, after: Spec, root: Pair)
    requires before.Closed() && after.Closed() && PairOf(before, after, root)
    requires InFragment(direction, before, after, root) && !Incompatible(direction, before, after, root)
    ensures Silent(direction, before, after, root, root)
  {
    assert Walk(before, after, root, []) == Some(root);
  }

  /** Requests: a comparison without reports keeps every old request valid. */
  lemma SilentGateKeepsRequests(matches: Matcher, before: Spec, after: Spec, o: NodeId, n: NodeId, v: Json)
    requires before.Closed() && after.Closed() && PairOf(before, after, (o, n))
    requires !Incompatible(Request, before, after, Resolved(before, after, (o, n)))
    requires InFragment(Request, before, after, Resolved(before, after, (o, n)))
    requires UsesOldFields(before, after, Resolved(before, after, (o, n)), v)
    requires Valid(matches, before, o, v)
    ensures Valid(matches, after, n, v)
  {
    var root := Resolved(before, after, (o, n));
    StartIsSilent(Request, before, after, root);
    RequestSound(matches, before, after, root, o, n, v);
  }

  /** Responses: a comparison without reports keeps every new response readable by old clients. */
  lemma SilentGateKeepsResponses(matches: Matcher, before: Spec, after: Spec, o: NodeId, n: NodeId, v: Json)
    requires before.Closed() && after.Closed() && PairOf(before, after, (o, n))
    requires !Incompatible(Response, before, after, Resolved(before, after, (o, n)))
    requires InFragment(Response, before, after, Resolved(before, after, (o, n)))
    requires Valid(matches, after, n, v)
    ensures Valid(matches, before, o, v)
  {
    var root := Resolved(before, after, (o, n));
    StartIsSilent(Response, before, after, root);
    ResponseSound(matches, before, after, root, o, n, v);
  }

  /** The fragment is needed: a bound that only the new schema carries goes unreported. */
  lemma AddedBoundIsMissed(matches: Matcher) returns (before: Spec, after: Spec, v: Json)
    ensures before.Closed() && after.Closed() && PairOf(before, after, (0, 0))
    ensures OneHop(before) && OneHop(after)
    ensures !Incompatible(Request, before, after, (0, 0))
    ensures UsesOldFields(before, after, (0, 0), v)
    ensures Valid(matches, before, 0, v) && !Valid(matches, after, 0, v)
  {
    var plain := Node(None, map[], NoType, NoList, None, Absent, {}, None, map[], None);
    before := Spec(0, map[0 := plain]);
    after := Spec(0, map[0 := plain.(bounds := map[Minimum := 1.0])]);
    v := Int(0);
    forall location ensures Walk(before, after, (0, 0), location) in {None, Some((0, 0))} {
      OnlyRoot(before, after, location);
    }
    assert !BoundAccepts(Minimum, 1.0, v);
    assert Minimum in after.nodes[0].bounds;
    assert !KeywordsAccept(matches, after.nodes[0], v);
  }

  lemma {:induction false} OnlyRoot(before: Spec, after: Spec, location: seq<Step>)
    requires before.Closed() && after.Closed() && PairOf(before, after, (0, 0))
    requires before.nodes.Keys == {0} && before.nodes[0].Fields() == map[] && before.nodes[0].items.None?
    ensures Walk(before, after, (0, 0), location) in {None, Some((0, 0))}
    decreases |location|
  {
    if location != [] {
      OnlyRoot(before, after, location[..|location| - 1]);
    }
  }
}
