/**
 * Schema documents as the compatibility gate reads them: a graph of mappings
 * that local references may make cyclic, and the ways a pair of schemas can break.
 */
module OpenApiSchema {
  import opened Sequences

  /** JSON instances; integers and floats are written differently. */
  datatype Json =
    | Null
    | Bool(b: bool)
    | Int(n: int)
    | Float(r: real)
    | Str(text: string)
    | Arr(elements: seq<Json>)
    | Obj(fields: map<string, Json>)

  /** The identity of a mapping in the document. */
  type NodeId = nat

  datatype RawType = NoType | OneType(name: string) | ManyTypes(names: seq<string>)

  /** The part of a schema that decides its types; alternatives are the anyOf, else the oneOf list. */
  datatype Shape = Shape(rawType: RawType, alternatives: Alternatives, hasProperties: bool)

  datatype Alternatives = NoList | List(shapes: seq<Shape>)

  datatype Properties = Absent | Malformed | Declared(fields: map<string, NodeId>)

  datatype Bound = Minimum | MinLength | MinItems | Maximum | MaxLength | MaxItems {
    predicate IsMinimum() {
      Minimum? || MinLength? || MinItems?
    }
  }

  /** `entries` are the mapping-valued entries a reference can walk through. */
  datatype Node = Node(
    reference: Option<seq<string>>,
    entries: map<string, NodeId>,
    rawType: RawType,
    alternatives: Alternatives,
    enumeration: Option<seq<Json>>,
    properties: Properties,
    required: set<string>,
    items: Option<NodeId>,
    bounds: map<Bound, real>,
    pattern: Option<string>)
  {
    function Fields(): map<string, NodeId> {
      if properties.Declared? then properties.fields else map[]
    }

    function Types(): set<string> {
      ShapeTypes(Shape(rawType, alternatives, !properties.Absent?))
    }
  }

  datatype Spec = Spec(root: NodeId, nodes: map<NodeId, Node>) {
    /** Every mapping mentioned in the document is part of it. */
    predicate Closed() {
      && root in nodes
      && forall id :: id in nodes ==>
           && (forall name :: name in nodes[id].entries ==> nodes[id].entries[name] in nodes)
           && (forall name :: name in nodes[id].Fields() ==> nodes[id].Fields()[name] in nodes)
           && (nodes[id].items.Some? ==> nodes[id].items.value in nodes)
    }
  }

  function ShapeTypes(shape: Shape): set<string> {
    match shape.rawType
    case OneType(name) => {name}
    case ManyTypes(names) => Elements(names)
    case NoType =>
      if shape.alternatives.List? then
        set k, name | 0 <= k < |shape.alternatives.shapes| && name in ShapeTypes(shape.alternatives.shapes[k]) :: name
      else if shape.hasProperties then {"object"}
      else {}
  }

  // References are followed for one hop.

  /** The mapping at the end of a path of components, if the path exists. */
  function Follow(spec: Spec, from: NodeId, components: seq<string>): (target: Option<NodeId>)
    requires spec.Closed() && from in spec.nodes
    ensures target.Some? ==> target.value in spec.nodes
    decreases |components|
  {
    if components == [] then Some(from)
    else if components[0] !in spec.nodes[from].entries then None
    else Follow(spec, spec.nodes[from].entries[components[0]], components[1..])
  }

  function Resolve(spec: Spec, schema: NodeId): (target: NodeId)
    requires spec.Closed() && schema in spec.nodes
    ensures target in spec.nodes
  {
    var reference := spec.nodes[schema].reference;
    if reference.None? then schema
    else
      var target := Follow(spec, spec.root, reference.value);
      if target.Some? then target.value else schema
  }

  method ResolveReference(spec: Spec, schema: NodeId) returns (target: NodeId)
    requires spec.Closed() && schema in spec.nodes
    ensures target == Resolve(spec, schema)
  {
    if spec.nodes[schema].reference.None? {
      return schema;
    }
    var components := spec.nodes[schema].reference.value;
    var value := spec.root;
    for k := 0 to |components|
      invariant value in spec.nodes
      invariant Follow(spec, spec.root, components) == Follow(spec, value, components[k..])
    {
      if components[k] !in spec.nodes[value].entries {
        return schema;
      }
      assert components[k..][1..] == components[k + 1..];
      value := spec.nodes[value].entries[components[k]];
    }
    return value;
  }

  // Where one pair of resolved schemas breaks.

  datatype Direction = Request | Response

  datatype Break =
    | TypesChanged
    | EnumNarrowed
    | NewRequired(field: string)
    | RequiredRemoved(field: string)
    | FieldRemoved(field: string)
    | BoundTightened(bound: Bound)
    | PatternChanged

  /** The accepted side must grow for requests and shrink for responses. */
  ghost predicate Widens<T>(direction: Direction, old_: set<T>, new_: set<T>) {
    if direction == Request then old_ <= new_ else new_ <= old_
  }

  ghost predicate Tightened(direction: Direction, bound: Bound, before: real, after: real) {
    if bound.IsMinimum() == (direction == Request) then after > before else after < before
  }

  ghost predicate IsBreak(direction: Direction, before: Node, after: Node, what: Break) {
    match what
    case TypesChanged =>
      before.Types() != {} && after.Types() != {} && !Widens(direction, before.Types(), after.Types())
    case EnumNarrowed =>
      && before.enumeration.Some? && after.enumeration.Some?
      && !Widens(direction, Elements(before.enumeration.value), Elements(after.enumeration.value))
    case NewRequired(field) =>
      direction == Request && before.properties.Declared? && field in after.required - before.required
    case RequiredRemoved(field) =>
      direction == Response && before.properties.Declared? && field in before.required - after.required
    case FieldRemoved(field) =>
      field in before.Fields() && field !in after.Fields()
    case BoundTightened(bound) =>
      && bound in before.bounds && bound in after.bounds
      && Tightened(direction, bound, before.bounds[bound], after.bounds[bound])
    case PatternChanged =>
      before.pattern != after.pattern
  }

  // The product of the two graphs.

  type Pair = (NodeId, NodeId)

  datatype Step = Field(name: string) | Item

  predicate PairOf(before: Spec, after: Spec, p: Pair) {
    p.0 in before.nodes && p.1 in after.nodes
  }

  function Resolved(before: Spec, after: Spec, p: Pair): (q: Pair)
    requires before.Closed() && after.Closed() && PairOf(before, after, p)
    ensures PairOf(before, after, q)
  {
    (Resolve(before, p.0), Resolve(after, p.1))
  }

  /** The pair of child schemas both sides have in common under `step`. */
  ghost function Next(before: Spec, after: Spec, p: Pair, step: Step): (q: Option<Pair>)
    requires before.Closed() && after.Closed() && PairOf(before, after, p)
    ensures q.Some? ==> PairOf(before, after, q.value)
  {
    var o, n := before.nodes[p.0], after.nodes[p.1];
    match step
    case Field(name) =>
      if name in o.Fields() && name in n.Fields()
      then Some(Resolved(before, after, (o.Fields()[name], n.Fields()[name])))
      else None
    case Item =>
      if o.items.Some? && n.items.Some?
      then Some(Resolved(before, after, (o.items.value, n.items.value)))
      else None
  }

  ghost function Walk(before: Spec, after: Spec, from: Pair, location: seq<Step>): (q: Option<Pair>)
    requires before.Closed() && after.Closed() && PairOf(before, after, from)
    ensures q.Some? ==> PairOf(before, after, q.value)
    decreases |location|
  {
    if location == [] then Some(from)
    else
      var parent := Walk(before, after, from, location[..|location| - 1]);
      if parent.None? then None else Next(before, after, parent.value, location[|location| - 1])
  }

  ghost predicate Reachable(before: Spec, after: Spec, from: Pair, q: Pair)
    requires before.Closed() && after.Closed() && PairOf(before, after, from)
  {
    exists location :: Walk(before, after, from, location) == Some(q)
  }

  /** Some pair reachable through shared fields and items is incompatible. */
  ghost predicate Incompatible(direction: Direction, before: Spec, after: Spec, from: Pair)
    requires before.Closed() && after.Closed() && PairOf(before, after, from)
  {
    exists q: Pair, what ::
      PairOf(before, after, q) && Reachable(before, after, from, q)
      && IsBreak(direction, before.nodes[q.0], after.nodes[q.1], what)
  }
}
