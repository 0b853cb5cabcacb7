/**
 * The compatibility gate over whole documents: paths, operations, parameters,
 * request bodies and responses, each schema pair compared from scratch.
 */
module OpenApiOperations {
  import opened Sequences
  import opened Sorting
  import opened OpenApiSchema
  import opened OpenApiCompat
  import OpenApiSoundness

  // Documents; what is not a mapping where one is expected reads as absent or malformed.

  datatype Document = Document(schemas: Spec, paths: Option<map<string, PathItem>>)
  datatype PathItem = PathItem(parameters: seq<RawParameter>, operations: map<string, Operation>)
  datatype Operation = Malformed | Operation(parameters: seq<RawParameter>, body: Body, responses: map<string, Content>)
  datatype RawParameter = Unusable | Parameter(location: string, name: string, schema: NodeId, required: bool)
  datatype Body = NoBody | Body(content: map<string, NodeId>, required: bool)
  datatype Content = MalformedContent | Content(media: map<string, NodeId>)

  const HTTP_METHODS := {"get", "put", "post", "delete", "patch", "options", "head"}

  /** An operation together with the parameters of its path. */
  datatype View = View(parameters: map<string, RawParameter>, body: Body, responses: map<string, Content>)

  function KeyOf(parameter: RawParameter): string
    requires parameter.Parameter?
  {
    parameter.location + ":" + parameter.name
  }

  /** The parameters by location and name; a later one replaces an earlier one of the same key. */
  function ByKey(parameters: seq<RawParameter>): (result: map<string, RawParameter>)
    ensures forall key :: key in result ==> result[key].Parameter? && result[key] in parameters
  {
    if parameters == [] then map[]
    else
      var n := |parameters| - 1;
      var earlier := ByKey(parameters[..n]);
      assert parameters == parameters[..n] + [parameters[n]];
      if parameters[n].Parameter? then earlier[KeyOf(parameters[n]) := parameters[n]] else earlier
  }

  ghost predicate IsLastWith(parameters: seq<RawParameter>, key: string, i: nat) {
    && i < |parameters| && HasKey(parameters[i], key)
    && forall j :: i < j < |parameters| ==> !HasKey(parameters[j], key)
  }

  /** A key is the location, a colon and the name of some usable parameter. */
  lemma {:induction false} KeysOfByKey(parameters: seq<RawParameter>, key: string)
    ensures key in ByKey(parameters) <==> exists parameter :: parameter in parameters && HasKey(parameter, key)
  {
    if parameters != [] {
      var n := |parameters| - 1;
      KeysOfByKey(parameters[..n], key);
      ByKeyNext(parameters, key);
      hide ByKey, HasKey;
      assert parameters == parameters[..n] + [parameters[n]];
    }
  }

  /** Of several parameters with the same location and name the last one counts. */
  lemma {:induction false} LastOfByKey(parameters: seq<RawParameter>, key: string, i: nat)
    requires IsLastWith(parameters, key, i)
    ensures key in ByKey(parameters) && ByKey(parameters)[key] == parameters[i]
  {
    var n := |parameters| - 1;
    ByKeyNext(parameters, key);
    hide ByKey, HasKey;
    if i < n {
      assert parameters[..n][i] == parameters[i];
      LastOfByKey(parameters[..n], key, i);
    }
  }

  lemma ByKeyNext(parameters: seq<RawParameter>, key: string)
    requires parameters != []
    ensures var earlier, last := ByKey(parameters[..|parameters| - 1]), parameters[|parameters| - 1];
      if HasKey(last, key) then key in ByKey(parameters) && ByKey(parameters)[key] == last
      else (key in ByKey(parameters) <==> key in earlier)
           && (key in earlier ==> ByKey(parameters)[key] == earlier[key])
  {
  }

  predicate HasKey(parameter: RawParameter, key: string) {
    parameter.Parameter? && key == parameter.location + ":" + parameter.name
  }

  function ViewOf(item: PathItem, operation: Operation): View
    requires operation.Operation?
  {
    View(ByKey(item.parameters + operation.parameters), operation.body, operation.responses)
  }

  /** An operation's own parameter overrides the path's of the same key, and nothing else is lost. */
  lemma {:induction false} LaterParametersOverride(earlier: seq<RawParameter>, later: seq<RawParameter>)
    ensures ByKey(earlier + later) == ByKey(earlier) + ByKey(later)
  {
    if later == [] {
      assert earlier + later == earlier;
    } else {
      var n := |later| - 1;
      assert (earlier + later)[..|earlier| + n] == earlier + later[..n];
      LaterParametersOverride(earlier, later[..n]);
    }
  }

  method Parameters(item: PathItem, operation: Operation) returns (result: map<string, RawParameter>)
    requires operation.Operation?
    ensures result == ByKey(item.parameters) + ByKey(operation.parameters)
  {
    var raws := item.parameters + operation.parameters;
    result := map[];
    for i := 0 to |raws|
      invariant result == ByKey(raws[..i])
    {
      assert raws[..i + 1][..i] == raws[..i];
      if raws[i].Parameter? {
        result := result[KeyOf(raws[i]) := raws[i]];
      }
    }
    assert raws[..|raws|] == raws;
    LaterParametersOverride(item.parameters, operation.parameters);
  }

  // Every schema a document mentions is one of its nodes.

  predicate MediaKnown(schemas: Spec, media: map<string, NodeId>) {
    forall m :: m in media ==> media[m] in schemas.nodes
  }

  ghost predicate ViewKnown(schemas: Spec, v: View) {
    && schemas.Closed()
    && (forall key :: key in v.parameters ==> v.parameters[key].Parameter? && v.parameters[key].schema in schemas.nodes)
    && (v.body.Body? ==> MediaKnown(schemas, v.body.content))
    && (forall status :: status in v.responses && v.responses[status].Content? ==>
         MediaKnown(schemas, v.responses[status].media))
  }

  // What there is to find about one operation.

  datatype Part =
    | ParameterPart(key: string)
    | RequestBody
    | RequestMedia(media: string)
    | ResponseStatus(status: string)
    | ResponseMedia(status: string, media: string)
  {
    function Side(): Direction {
      if ResponseMedia? then Response else Request
    }
  }

  datatype Problem = Removed | NewlyRequired | SchemaBroken(change: Change)

  datatype Finding = Finding(part: Part, problem: Problem)

  /** Two views of one operation with their documents. */
  datatype Comparand = Comparand(oldSchemas: Spec, newSchemas: Spec, o: View, n: View) {
    ghost predicate Known() {
      ViewKnown(oldSchemas, o) && ViewKnown(newSchemas, n)
    }

    /** The schemas that a part has on both sides. */
    ghost function Schemas(part: Part): (pair: Option<Pair>)
      requires Known()
      ensures pair.Some? ==> PairOf(oldSchemas, newSchemas, pair.value)
    {
      match part
      case ParameterPart(key) =>
        if key in o.parameters && key in n.parameters
        then Some((o.parameters[key].schema, n.parameters[key].schema)) else None
      case RequestMedia(media) =>
        if o.body.Body? && n.body.Body? then InBoth(o.body.content, n.body.content, media) else None
      case ResponseMedia(status, media) =>
        if BothContents(status) then InBoth(o.responses[status].media, n.responses[status].media, media) else None
      case _ => None
    }

    ghost predicate BothContents(status: string) {
      status in o.responses && status in n.responses && o.responses[status].Content? && n.responses[status].Content?
    }

    ghost function InBoth(before: map<string, NodeId>, after: map<string, NodeId>, media: string): Option<Pair> {
      if media in before && media in after then Some((before[media], after[media])) else None
    }

    ghost function TaskOf(part: Part): Task
      requires Known() && Schemas(part).Some?
    {
      Task(oldSchemas, newSchemas, part.Side(), Resolved(oldSchemas, newSchemas, Schemas(part).value))
    }

    /** What is missing or newly demanded, schemas aside. */
    ghost predicate Due(part: Part, problem: Problem) {
      match part
      case ParameterPart(key) =>
        || (problem.Removed? && key in o.parameters && key !in n.parameters)
        || (problem.NewlyRequired? && key in n.parameters && key !in o.parameters
            && n.parameters[key].Parameter? && n.parameters[key].required)
      case RequestBody =>
        || (problem.Removed? && o.body.Body? && n.body.NoBody?)
        || (problem.NewlyRequired? && o.body.NoBody? && n.body.Body? && n.body.required)
      case RequestMedia(media) =>
        problem.Removed? && o.body.Body? && n.body.Body? && media in o.body.content && media !in n.body.content
      case ResponseStatus(status) =>
        problem.Removed? && status in o.responses && status !in n.responses
      case ResponseMedia(status, media) =>
        && problem.Removed? && BothContents(status)
        && media in o.responses[status].media && media !in n.responses[status].media
    }

    /** The findings say about this part exactly what is due, and of its schemas what a faithful comparison says. */
    ghost predicate ExactAt(findings: seq<Finding>, part: Part)
      requires Known()
    {
      && (Finding(part, Removed) in findings <==> Due(part, Removed))
      && (Finding(part, NewlyRequired) in findings <==> Due(part, NewlyRequired))
      && if Schemas(part).Some?
         then exists changes :: Faithful(TaskOf(part), changes) && SchemaFindings(findings, part, changes)
         else SchemaFindings(findings, part, [])
    }

    /** The schema findings of the part are these changes. */
    ghost predicate SchemaFindings(findings: seq<Finding>, part: Part, changes: seq<Change>) {
      forall change :: Finding(part, SchemaBroken(change)) in findings <==> change in changes
    }

    ghost predicate Exact(findings: seq<Finding>)
      requires Known()
    {
      forall part :: ExactAt(findings, part)
    }

    /** Nothing is due, and no pair of schemas is incompatible. */
    ghost predicate Compatible()
      requires Known()
    {
      forall part :: CompatibleAt(part)
    }

    ghost predicate CompatibleAt(part: Part)
      requires Known()
    {
      && !Due(part, Removed) && !Due(part, NewlyRequired)
      && (Schemas(part).Some? ==>
           !Incompatible(part.Side(), oldSchemas, newSchemas,
                         Resolved(oldSchemas, newSchemas, Schemas(part).value)))
    }

    /** Nothing there to say about a part. */
    ghost predicate Quiet(part: Part)
      requires Known()
    {
      !Due(part, Removed) && !Due(part, NewlyRequired) && Schemas(part).None?
    }

    ghost predicate Only(findings: seq<Finding>, part: Part) {
      forall finding :: finding in findings ==> finding.part == part
    }

    ghost predicate NoneAt(findings: seq<Finding>, part: Part) {
      forall finding :: finding in findings ==> finding.part != part
    }

    lemma QuietIsExact(findings: seq<Finding>, part: Part)
      requires Known() && Quiet(part) && NoneAt(findings, part)
      ensures ExactAt(findings, part)
    {
      assert SchemaFindings(findings, part, []);
    }

    /** Findings about one part change nothing said about another. */
    lemma OtherPartKept(findings: seq<Finding>, more: seq<Finding>, part: Part, other: Part)
      requires Known() && Only(more, part) && other != part && ExactAt(findings, other)
      ensures ExactAt(findings + more, other)
    {
      hide Due, Schemas;
      forall problem ensures Finding(other, problem) in findings + more <==> Finding(other, problem) in findings {
      }
      if Schemas(other).Some? {
        hide Faithful;
        var changes :| Faithful(TaskOf(other), changes) && SchemaFindings(findings, other, changes);
        assert SchemaFindings(findings + more, other, changes);
      }
    }

    lemma NewPartExact(findings: seq<Finding>, more: seq<Finding>, part: Part)
      requires Known() && NoneAt(findings, part) && ExactAt(more, part)
      ensures ExactAt(findings + more, part)
    {
      hide Due, Schemas;
      forall problem ensures Finding(part, problem) in findings + more <==> Finding(part, problem) in more {
      }
      if Schemas(part).Some? {
        hide Faithful;
        var changes :| Faithful(TaskOf(part), changes) && SchemaFindings(more, part, changes);
        assert SchemaFindings(findings + more, part, changes);
      }
    }
  }

  function Broken(part: Part, changes: seq<Change>): (findings: seq<Finding>)
    ensures forall finding :: finding in findings <==>
      finding.part == part && finding.problem.SchemaBroken? && finding.problem.change in changes
  {
    if changes == [] then []
    else
      var n := |changes| - 1;
      assert changes == changes[..n] + [changes[n]];
      Broken(part, changes[..n]) + [Finding(part, SchemaBroken(changes[n]))]
  }

  /** Findings about the parts in `covered`, and about no others. */
  ghost predicate Covers(c: Comparand, findings: seq<Finding>, covered: set<Part>)
    requires c.Known()
  {
    && (forall finding :: finding in findings ==> finding.part in covered)
    && (forall part :: part in covered ==> c.ExactAt(findings, part))
  }

  lemma CoversMore(c: Comparand, findings: seq<Finding>, covered: set<Part>, more: seq<Finding>, part: Part)
    requires c.Known() && Covers(c, findings, covered) && part !in covered
    requires c.Only(more, part) && c.ExactAt(more, part)
    ensures Covers(c, findings + more, covered + {part})
  {
    hide *;
    CoveredParts(c, findings, covered, part);
    c.NewPartExact(findings, more, part);
    forall other | other in covered ensures c.ExactAt(findings + more, other) {
      CoveredParts(c, findings, covered, other);
      c.OtherPartKept(findings, more, part, other);
    }
    CoversFromParts(c, findings, covered, more, part);
  }

  lemma CoveredParts(c: Comparand, findings: seq<Finding>, covered: set<Part>, part: Part)
    requires c.Known() && Covers(c, findings, covered)
    ensures part in covered ==> c.ExactAt(findings, part)
    ensures part !in covered ==> c.NoneAt(findings, part)
  {
    hide c.ExactAt;
  }

  lemma CoversFromParts(c: Comparand, findings: seq<Finding>, covered: set<Part>, more: seq<Finding>, part: Part)
    requires c.Known() && Covers(c, findings, covered) && c.Only(more, part)
    requires forall other :: other in covered + {part} ==> c.ExactAt(findings + more, other)
    ensures Covers(c, findings + more, covered + {part})
  {
    hide c.ExactAt;
  }

  /** Where all the parts left out are quiet, the findings are exact. */
  lemma CoversAll(c: Comparand, findings: seq<Finding>, covered: set<Part>)
    requires c.Known() && Covers(c, findings, covered)
    requires forall part :: part !in covered ==> c.Quiet(part)
    ensures c.Exact(findings)
  {
    hide c.ExactAt, c.Quiet;
    forall part ensures c.ExactAt(findings, part) {
      if part !in covered {
        c.QuietIsExact(findings, part);
      }
    }
  }

  // One operation.

  lemma SingleIsExact(c: Comparand, part: Part, problem: Problem)
    requires c.Known() && c.Schemas(part).None? && !problem.SchemaBroken?
    requires c.Due(part, problem) && !c.Due(part, if problem.Removed? then NewlyRequired else Removed)
    ensures c.Only([Finding(part, problem)], part) && c.ExactAt([Finding(part, problem)], part)
  {
    hide c.Due, c.Schemas;
    assert c.SchemaFindings([Finding(part, problem)], part, []);
  }

  lemma SilenceIsExact(c: Comparand, part: Part)
    requires c.Known() && c.Quiet(part)
    ensures c.Only([], part) && c.ExactAt([], part)
  {
    hide c.Quiet, c.ExactAt;
    c.QuietIsExact([], part);
  }

  /** The comparison of the two schemas of a part, with nothing seen before. */
  method CompareSchemasAt(c: Comparand, part: Part, o: NodeId, n: NodeId) returns (findings: seq<Finding>)
    requires c.Known() && c.Schemas(part) == Some((o, n))
    requires !c.Due(part, Removed) && !c.Due(part, NewlyRequired)
    ensures c.Only(findings, part) && c.ExactAt(findings, part)
  {
    hide c.Due, c.Schemas, c.ExactAt, c.Only, Incompatible, Reachable;
    var changes := CompareSchemas(c.oldSchemas, c.newSchemas, part.Side(), o, n);
    findings := Broken(part, changes);
    ComparisonIsExact(c, part, changes, findings);
  }

  lemma ComparisonIsExact(c: Comparand, part: Part, changes: seq<Change>, findings: seq<Finding>)
    requires c.Known() && c.Schemas(part).Some? && !c.Due(part, Removed) && !c.Due(part, NewlyRequired)
    requires Faithful(c.TaskOf(part), changes)
    requires forall finding :: finding in findings <==>
      finding.part == part && finding.problem.SchemaBroken? && finding.problem.change in changes
    ensures c.Only(findings, part) && c.ExactAt(findings, part)
  {
    hide Faithful, c.Due, c.Schemas;
    assert c.SchemaFindings(findings, part, changes);
  }

  method OldParameter(c: Comparand, key: string) returns (findings: seq<Finding>)
    requires c.Known() && key in c.o.parameters
    ensures c.Only(findings, ParameterPart(key)) && c.ExactAt(findings, ParameterPart(key))
  {
    if key !in c.n.parameters {
      findings := [Finding(ParameterPart(key), Removed)];
      SingleIsExact(c, ParameterPart(key), Removed);
    } else {
      findings := CompareSchemasAt(c, ParameterPart(key), c.o.parameters[key].schema, c.n.parameters[key].schema);
    }
    hide c.ExactAt;
  }

  method NewParameter(c: Comparand, key: string) returns (findings: seq<Finding>)
    requires c.Known() && key in c.n.parameters && key !in c.o.parameters
    ensures c.Only(findings, ParameterPart(key)) && c.ExactAt(findings, ParameterPart(key))
  {
    if c.n.parameters[key].required {
      findings := [Finding(ParameterPart(key), NewlyRequired)];
      SingleIsExact(c, ParameterPart(key), NewlyRequired);
    } else {
      findings := [];
      SilenceIsExact(c, ParameterPart(key));
    }
    hide c.ExactAt;
  }

  method RequestMediaAt(c: Comparand, media: string) returns (findings: seq<Finding>)
    requires c.Known() && c.o.body.Body? && c.n.body.Body? && media in c.o.body.content
    ensures c.Only(findings, RequestMedia(media)) && c.ExactAt(findings, RequestMedia(media))
  {
    if media !in c.n.body.content {
      findings := [Finding(RequestMedia(media), Removed)];
      SingleIsExact(c, RequestMedia(media), Removed);
    } else {
      findings := CompareSchemasAt(c, RequestMedia(media), c.o.body.content[media], c.n.body.content[media]);
    }
    hide c.ExactAt;
  }

  method ResponseMediaAt(c: Comparand, status: string, media: string) returns (findings: seq<Finding>)
    requires c.Known() && c.BothContents(status) && media in c.o.responses[status].media
    ensures c.Only(findings, ResponseMedia(status, media)) && c.ExactAt(findings, ResponseMedia(status, media))
  {
    var part := ResponseMedia(status, media);
    var before, after := c.o.responses[status].media, c.n.responses[status].media;
    if media !in after {
      findings := [Finding(part, Removed)];
      SingleIsExact(c, part, Removed);
    } else {
      findings := CompareSchemasAt(c, part, before[media], after[media]);
    }
    hide c.ExactAt;
  }

  method CompareOldParameters(c: Comparand) returns (findings: seq<Finding>, ghost covered: set<Part>)
    requires c.Known()
    ensures Covers(c, findings, covered)
    ensures forall part :: part in covered <==> part.ParameterPart? && part.key in c.o.parameters
  {
    hide *;
    findings, covered := [], {};
    NothingCovered(c);
    var rest := c.o.parameters.Keys;
    while rest != {}
      invariant rest <= c.o.parameters.Keys
      invariant Covers(c, findings, covered)
      invariant forall part :: part in covered <==> part.ParameterPart? && part.key in c.o.parameters.Keys - rest
      decreases rest
    {
      var key :| key in rest;
      var more := OldParameter(c, key);
      CoversMore(c, findings, covered, more, ParameterPart(key));
      findings, covered, rest := findings + more, covered + {ParameterPart(key)}, rest - {key};
    }
  }

  lemma NothingCovered(c: Comparand)
    requires c.Known()
    ensures Covers(c, [], {})
  {
  }

  method CompareNewParameters(c: Comparand, earlier: seq<Finding>, ghost before: set<Part>)
      returns (findings: seq<Finding>, ghost covered: set<Part>)
    requires c.Known() && Covers(c, earlier, before)
    requires forall part :: part in before <==> part.ParameterPart? && part.key in c.o.parameters
    ensures Covers(c, findings, covered)
    ensures forall part :: part in covered <==>
      part.ParameterPart? && (part.key in c.o.parameters || part.key in c.n.parameters)
  {
    hide *;
    findings, covered := earlier, before;
    var rest := c.n.parameters.Keys;
    while rest != {}
      invariant rest <= c.n.parameters.Keys
      invariant Covers(c, findings, covered)
      invariant forall part :: part in covered <==>
        part.ParameterPart? && (part.key in c.o.parameters || part.key in c.n.parameters.Keys - rest)
      decreases rest
    {
      var key :| key in rest;
      if key !in c.o.parameters {
        var more := NewParameter(c, key);
        CoversMore(c, findings, covered, more, ParameterPart(key));
        findings, covered := findings + more, covered + {ParameterPart(key)};
      }
      rest := rest - {key};
    }
  }

  /** The request body as a whole: removed, newly required, or neither. */
  method BodyAt(c: Comparand) returns (findings: seq<Finding>)
    requires c.Known()
    ensures c.Only(findings, RequestBody) && c.ExactAt(findings, RequestBody)
  {
    if c.o.body.Body? {
      if c.n.body.NoBody? {
        findings := [Finding(RequestBody, Removed)];
        SingleIsExact(c, RequestBody, Removed);
      } else {
        findings := [];
        SilenceIsExact(c, RequestBody);
      }
    } else if c.n.body.Body? && c.n.body.required {
      findings := [Finding(RequestBody, NewlyRequired)];
      SingleIsExact(c, RequestBody, NewlyRequired);
    } else {
      findings := [];
      SilenceIsExact(c, RequestBody);
    }
    hide c.ExactAt;
  }

  method CompareBody(c: Comparand, earlier: seq<Finding>, ghost before: set<Part>)
      returns (findings: seq<Finding>, ghost covered: set<Part>)
    requires c.Known() && Covers(c, earlier, before)
    requires forall part :: part in before ==> part.ParameterPart?
    ensures Covers(c, findings, covered)
    ensures forall part :: part in covered <==>
      || part in before || part.RequestBody?
      || (part.RequestMedia? && c.o.body.Body? && c.n.body.Body? && part.media in c.o.body.content)
  {
    hide *;
    var whole := BodyAt(c);
    CoversMore(c, earlier, before, whole, RequestBody);
    findings, covered := earlier + whole, before + {RequestBody};
    if c.o.body.Body? && c.n.body.Body? {
      var rest := c.o.body.content.Keys;
      while rest != {}
        invariant rest <= c.o.body.content.Keys
        invariant Covers(c, findings, covered)
        invariant forall part :: part in covered <==>
          || part in before || part.RequestBody?
          || (part.RequestMedia? && part.media in c.o.body.content.Keys - rest)
        decreases rest
      {
        var media :| media in rest;
        var more := RequestMediaAt(c, media);
        CoversMore(c, findings, covered, more, RequestMedia(media));
        findings, covered, rest := findings + more, covered + {RequestMedia(media)}, rest - {media};
      }
    }
  }

  method StatusAt(c: Comparand, status: string) returns (findings: seq<Finding>)
    requires c.Known() && status in c.o.responses
    ensures c.Only(findings, ResponseStatus(status)) && c.ExactAt(findings, ResponseStatus(status))
  {
    if status !in c.n.responses {
      findings := [Finding(ResponseStatus(status), Removed)];
      SingleIsExact(c, ResponseStatus(status), Removed);
    } else {
      findings := [];
      SilenceIsExact(c, ResponseStatus(status));
    }
    hide c.ExactAt;
  }

  /** One response: its presence, and each media type where both contents are well formed. */
  method CompareResponse(c: Comparand, status: string, earlier: seq<Finding>, ghost before: set<Part>)
      returns (findings: seq<Finding>, ghost covered: set<Part>)
    requires c.Known() && Covers(c, earlier, before) && status in c.o.responses
    requires forall part :: part in before ==>
      !(part.ResponseStatus? && part.status == status) && !(part.ResponseMedia? && part.status == status)
    ensures Covers(c, findings, covered)
    ensures forall part :: part in covered <==>
      || part in before || part == ResponseStatus(status)
      || (part.ResponseMedia? && part.status == status && c.BothContents(status)
          && part.media in c.o.responses[status].media)
  {
    hide *;
    var presence := StatusAt(c, status);
    CoversMore(c, earlier, before, presence, ResponseStatus(status));
    findings, covered := earlier + presence, before + {ResponseStatus(status)};
    var both := status in c.n.responses && c.o.responses[status].Content? && c.n.responses[status].Content?;
    ContentsMeaning(c, status);
    if both {
      var content := c.o.responses[status].media;
      var rest := content.Keys;
      while rest != {}
        invariant rest <= content.Keys
        invariant Covers(c, findings, covered)
        invariant forall part :: part in covered <==>
          || part in before || part == ResponseStatus(status)
          || (part.ResponseMedia? && part.status == status && part.media in content.Keys - rest)
        decreases rest
      {
        var media :| media in rest;
        var more := ResponseMediaAt(c, status, media);
        CoversMore(c, findings, covered, more, ResponseMedia(status, media));
        findings, covered, rest := findings + more, covered + {ResponseMedia(status, media)}, rest - {media};
      }
    }
  }

  lemma ContentsMeaning(c: Comparand, status: string)
    requires status in c.o.responses
    ensures c.BothContents(status) <==>
      status in c.n.responses && c.o.responses[status].Content? && c.n.responses[status].Content?
  {
  }

  /** The part belongs to a response with one of these status codes. */
  ghost predicate OfResponses(c: Comparand, statuses: set<string>, part: Part) {
    || (part.ResponseStatus? && part.status in statuses)
    || (part.ResponseMedia? && part.status in statuses && c.BothContents(part.status)
        && part.media in c.o.responses[part.status].media)
  }

  method CompareResponses(c: Comparand, earlier: seq<Finding>, ghost before: set<Part>)
      returns (findings: seq<Finding>, ghost covered: set<Part>)
    requires c.Known() && Covers(c, earlier, before)
    requires forall part :: part in before ==> !part.ResponseStatus? && !part.ResponseMedia?
    ensures Covers(c, findings, covered)
    ensures forall part :: part in covered <==> part in before || OfResponses(c, c.o.responses.Keys, part)
  {
    hide Covers, c.Known, c.BothContents;
    findings, covered := earlier, before;
    var rest := c.o.responses.Keys;
    while rest != {}
      invariant rest <= c.o.responses.Keys
      invariant Covers(c, findings, covered)
      invariant forall part :: part in covered <==> part in before || OfResponses(c, c.o.responses.Keys - rest, part)
      decreases rest
    {
      var status :| status in rest;
      findings, covered := CompareResponse(c, status, findings, covered);
      rest := rest - {status};
    }
    assert c.o.responses.Keys - rest == c.o.responses.Keys;
  }

  /** Everything there is to find about one operation. */
  method CompareOperation(c: Comparand) returns (findings: seq<Finding>)
    requires c.Known()
    ensures c.Exact(findings)
    ensures findings == [] <==> c.Compatible()
  {
    hide *;
    ghost var covered: set<Part>;
    findings, covered := CompareOldParameters(c);
    findings, covered := CompareNewParameters(c, findings, covered);
    findings, covered := CompareBody(c, findings, covered);
    findings, covered := CompareResponses(c, findings, covered);
    forall part | part !in covered ensures c.Quiet(part) {
      OtherPartsAreQuiet(c, part);
    }
    CoversAll(c, findings, covered);
    ExactIsCompatible(c, findings);
  }

  lemma OtherPartsAreQuiet(c: Comparand, part: Part)
    requires c.Known()
    requires !(part.ParameterPart? && (part.key in c.o.parameters || part.key in c.n.parameters))
    requires !part.RequestBody?
    requires !(part.RequestMedia? && c.o.body.Body? && c.n.body.Body? && part.media in c.o.body.content)
    requires !OfResponses(c, c.o.responses.Keys, part)
    ensures c.Quiet(part)
  {
    hide c.Known;
  }

  /** Exact findings are empty exactly when the operation is compatible. */
  lemma ExactIsCompatible(c: Comparand, findings: seq<Finding>)
    requires c.Known() && c.Exact(findings)
    ensures findings == [] <==> c.Compatible()
  {
    if findings != [] {
      var finding := findings[0];
      assert finding in findings;
      NotCompatibleAt(c, findings, finding);
    } else {
      forall part ensures c.ExactAt(findings, part) {
      }
      EmptyIsCompatible(c, findings);
    }
  }

  lemma NotCompatibleAt(c: Comparand, findings: seq<Finding>, finding: Finding)
    requires c.Known() && c.ExactAt(findings, finding.part) && finding in findings
    ensures !c.Compatible()
  {
    var part := finding.part;
    assert !c.CompatibleAt(part) ==> !c.Compatible();
    if finding.problem.SchemaBroken? && c.Schemas(part).Some? {
      hide Incompatible;
      var changes :| Faithful(c.TaskOf(part), changes) && c.SchemaFindings(findings, part, changes);
      assert finding.problem.change in changes;
    }
  }

  lemma EmptyIsCompatible(c: Comparand, findings: seq<Finding>)
    requires c.Known() && findings == [] && forall part :: c.ExactAt(findings, part)
    ensures c.Compatible()
  {
    forall part ensures c.CompatibleAt(part) {
      EmptyIsCompatibleAt(c, findings, part);
    }
    hide c.CompatibleAt, c.ExactAt;
  }

  lemma EmptyIsCompatibleAt(c: Comparand, findings: seq<Finding>, part: Part)
    requires c.Known() && findings == [] && c.ExactAt(findings, part)
    ensures c.CompatibleAt(part)
  {
    hide c.Due, c.Schemas;
    if c.Schemas(part).Some? {
      hide Faithful;
      var changes :| Faithful(c.TaskOf(part), changes) && c.SchemaFindings(findings, part, changes);
      assert forall change :: change !in changes;
      FirstIsElement(changes);
      hide *;
      FaithfulSilence(c, part, changes);
    }
  }

  lemma FaithfulSilence(c: Comparand, part: Part, changes: seq<Change>)
    requires c.Known() && c.Schemas(part).Some? && Faithful(c.TaskOf(part), changes) && changes == []
    ensures !Incompatible(part.Side(), c.oldSchemas, c.newSchemas,
                          Resolved(c.oldSchemas, c.newSchemas, c.Schemas(part).value))
  {
    hide Incompatible, Reachable, c.Schemas;
  }

  lemma FirstIsElement<T>(s: seq<T>)
    ensures s != [] ==> s[0] in s
  {
  }

  // Whole documents.

  datatype Report =
    | PathsMissing
    | PathRemoved(path: string)
    | OperationRemoved(path: string, method_: string)
    | InvalidOperation(path: string, method_: string)
    | OperationBroken(path: string, method_: string, finding: Finding)

  /** What a report can be about. */
  datatype Unit = PathUnit(path: string) | OperationUnit(path: string, method_: string)

  function UnitOf(report: Report): Unit
    requires !report.PathsMissing?
  {
    if report.PathRemoved? then PathUnit(report.path) else OperationUnit(report.path, report.method_)
  }

  /** Two documents whose paths are both mappings. */
  datatype Release = Release(oldSchemas: Spec, newSchemas: Spec, before: map<string, PathItem>,
                             after: map<string, PathItem>) {
    ghost predicate Known() {
      forall path, method_ :: Comparable(path, method_) ==> ComparandAt(path, method_).Known()
    }

    /** The old document declares the operation, under a path that both documents have. */
    predicate InScope(path: string, method_: string) {
      path in before && path in after && method_ in HTTP_METHODS && method_ in before[path].operations
    }

    predicate Comparable(path: string, method_: string) {
      && InScope(path, method_) && method_ in after[path].operations
      && before[path].operations[method_].Operation? && after[path].operations[method_].Operation?
    }

    function ComparandAt(path: string, method_: string): Comparand
      requires Comparable(path, method_)
    {
      Comparand(oldSchemas, newSchemas, ViewOf(before[path], before[path].operations[method_]),
                ViewOf(after[path], after[path].operations[method_]))
    }

    /** The reports say about this unit exactly what holds of it. */
    ghost predicate ExactAt(reports: seq<Report>, unit: Unit)
      requires Known()
    {
      match unit
      case PathUnit(path) => PathRemoved(path) in reports <==> path in before && path !in after
      case OperationUnit(path, method_) =>
        && (OperationRemoved(path, method_) in reports <==>
            InScope(path, method_) && method_ !in after[path].operations)
        && (InvalidOperation(path, method_) in reports <==>
             InScope(path, method_) && method_ in after[path].operations && !Comparable(path, method_))
        && if Comparable(path, method_)
           then exists findings ::
             ComparandAt(path, method_).Exact(findings) &&
             OperationFindings(reports, path, method_, findings)
           else OperationFindings(reports, path, method_, [])
    }

    ghost predicate OperationFindings(reports: seq<Report>, path: string, method_: string, findings: seq<Finding>) {
      forall finding :: OperationBroken(path, method_, finding) in reports <==> finding in findings
    }

    ghost predicate Exact(reports: seq<Report>)
      requires Known()
    {
      PathsMissing !in reports && forall unit :: ExactAt(reports, unit)
    }

    /** Every old path and operation is still there, well formed, and compatible. */
    ghost predicate Compatible()
      requires Known()
    {
      && (forall path :: path in before ==> path in after)
      && (forall path, method_ :: InScope(path, method_) ==>
           Comparable(path, method_) && ComparandAt(path, method_).Compatible())
    }

    ghost predicate Only(reports: seq<Report>, unit: Unit) {
      forall report :: report in reports ==> !report.PathsMissing? && UnitOf(report) == unit
    }

    lemma OtherUnitKept(reports: seq<Report>, more: seq<Report>, unit: Unit, other: Unit)
      requires Known() && Only(more, unit) && other != unit && ExactAt(reports, other)
      ensures ExactAt(reports + more, other)
    {
      forall report: Report | !report.PathsMissing? && UnitOf(report) == other ensures report in reports + more <==>
        report in reports {
      }
      if other.OperationUnit? && Comparable(other.path, other.method_) {
        var c := ComparandAt(other.path, other.method_);
        hide c.Exact;
        var findings :| c.Exact(findings) && OperationFindings(reports, other.path, other.method_, findings);
        assert OperationFindings(reports + more, other.path, other.method_, findings);
      }
    }

    lemma NewUnitExact(reports: seq<Report>, more: seq<Report>, unit: Unit)
      requires Known() && ExactAt(more, unit)
      requires forall report :: report in reports ==> !report.PathsMissing? && UnitOf(report) != unit
      ensures ExactAt(reports + more, unit)
    {
      forall report: Report | !report.PathsMissing? && UnitOf(report) == unit ensures report in reports + more <==>
        report in more {
      }
      if unit.OperationUnit? && Comparable(unit.path, unit.method_) {
        var c := ComparandAt(unit.path, unit.method_);
        hide c.Exact;
        var findings :| c.Exact(findings) && OperationFindings(more, unit.path, unit.method_, findings);
        assert OperationFindings(reports + more, unit.path, unit.method_, findings);
      }
    }

    /** Nothing to say about the unit. */
    predicate Quiet(unit: Unit) {
      match unit
      case PathUnit(path) => !(path in before && path !in after)
      case OperationUnit(path, method_) => !InScope(path, method_)
    }

    lemma QuietIsExact(reports: seq<Report>, unit: Unit)
      requires Known() && Quiet(unit)
      requires forall report :: report in reports ==> !report.PathsMissing? && UnitOf(report) != unit
      ensures ExactAt(reports, unit)
    {
      if unit.OperationUnit? {
        assert OperationFindings(reports, unit.path, unit.method_, []);
      }
    }

    /** Reports about the units in `covered` only, and exact about each. */
    ghost predicate Covers(reports: seq<Report>, covered: set<Unit>)
      requires Known()
    {
      && (forall report :: report in reports ==> !report.PathsMissing? && UnitOf(report) in covered)
      && (forall unit :: unit in covered ==> ExactAt(reports, unit))
    }

    lemma CoversMore(reports: seq<Report>, covered: set<Unit>, more: seq<Report>, unit: Unit)
      requires Known() && Covers(reports, covered) && unit !in covered && Only(more, unit) && ExactAt(more, unit)
      ensures Covers(reports + more, covered + {unit})
    {
      hide ExactAt, Known;
      NewUnitExact(reports, more, unit);
      forall other | other in covered ensures ExactAt(reports + more, other) {
        OtherUnitKept(reports, more, unit, other);
      }
    }

    lemma CoversAll(reports: seq<Report>, covered: set<Unit>)
      requires Known() && Covers(reports, covered)
      requires forall unit :: unit !in covered ==> Quiet(unit)
      ensures Exact(reports)
    {
      hide ExactAt, Quiet, Known;
      forall unit ensures ExactAt(reports, unit) {
        if unit !in covered {
          QuietIsExact(reports, unit);
        }
      }
    }

    /** Only membership matters: dropping repetitions keeps reports exact. */
    lemma SameReportsExact(reports: seq<Report>, same: seq<Report>)
      requires Known() && Exact(reports) && forall report :: report in same <==> report in reports
      ensures Exact(same)
    {
      forall unit ensures ExactAt(same, unit) {
        assert ExactAt(reports, unit);
        if unit.OperationUnit? && Comparable(unit.path, unit.method_) {
          var c := ComparandAt(unit.path, unit.method_);
          assert c.Known();
          hide c.Exact;
          var findings :| c.Exact(findings) && OperationFindings(reports, unit.path, unit.method_, findings);
          assert OperationFindings(same, unit.path, unit.method_, findings);
        }
      }
    }
  }

  method CompareAt(r: Release, path: string, method_: string) returns (reports: seq<Report>)
    requires r.Known() && r.InScope(path, method_)
    ensures r.Only(reports, OperationUnit(path, method_)) && r.ExactAt(reports, OperationUnit(path, method_))
  {
    var unit := OperationUnit(path, method_);
    if method_ !in r.after[path].operations {
      reports := [OperationRemoved(path, method_)];
      assert r.OperationFindings(reports, path, method_, []);
    } else if r.before[path].operations[method_].Malformed? || r.after[path].operations[method_].Malformed? {
      reports := [InvalidOperation(path, method_)];
      assert r.OperationFindings(reports, path, method_, []);
    } else {
      var oldParameters := Parameters(r.before[path], r.before[path].operations[method_]);
      var newParameters := Parameters(r.after[path], r.after[path].operations[method_]);
      LaterParametersOverride(r.before[path].parameters, r.before[path].operations[method_].parameters);
      LaterParametersOverride(r.after[path].parameters, r.after[path].operations[method_].parameters);
      var o, n := r.before[path].operations[method_], r.after[path].operations[method_];
      var c := Comparand(r.oldSchemas, r.newSchemas, View(oldParameters, o.body, o.responses),
                         View(newParameters, n.body, n.responses));
      assert c == r.ComparandAt(path, method_);
      var findings := CompareOperation(c);
      reports := OperationReports(path, method_, findings);
      hide c.Exact;
      assert r.OperationFindings(reports, path, method_, findings);
    }
  }

  function OperationReports(path: string, method_: string, findings: seq<Finding>): (reports: seq<Report>)
    ensures forall report :: report in reports <==>
      report.OperationBroken? && report.path == path && report.method_ == method_ && report.finding in findings
  {
    if findings == [] then []
    else
      var n := |findings| - 1;
      assert findings == findings[..n] + [findings[n]];
      OperationReports(path, method_, findings[..n]) + [OperationBroken(path, method_, findings[n])]
  }

  /** The operations of one path, in the order of their methods. */
  method ComparePath(r: Release, path: string, earlier: seq<Report>, ghost before: set<Unit>)
      returns (reports: seq<Report>, ghost covered: set<Unit>)
    requires r.Known() && path in r.before && path in r.after && r.Covers(earlier, before)
    requires forall unit :: unit in before ==> unit.path != path
    ensures r.Covers(reports, covered)
    ensures forall unit :: unit in covered <==>
      unit in before || (unit.OperationUnit? && unit.path == path && r.InScope(path, unit.method_))
  {
    var methods := SortedStrings(HTTP_METHODS * r.before[path].operations.Keys);
    assert AllInScope(r, path, methods) && Distinct(methods);
    assert Adds(path, methods[..0], before, before);
    hide *;
    reports, covered := earlier, before;
    for i := 0 to |methods|
      invariant r.Covers(reports, covered)
      invariant Adds(path, methods[..i], before, covered)
    {
      var unit := OperationUnit(path, methods[i]);
      NextMethod(r, path, methods, i, before, covered);
      var more := CompareAt(r, path, methods[i]);
      r.CoversMore(reports, covered, more, unit);
      reports, covered := reports + more, covered + {unit};
    }
    assert methods[..|methods|] == methods;
    AddsAll(r, path, methods, before, covered);
  }

  ghost predicate AllInScope(r: Release, path: string, methods: seq<string>) {
    forall method_ :: method_ in methods <==> r.InScope(path, method_)
  }

  /** The units covered since `before` are the given operations of the path. */
  ghost predicate Adds(path: string, methods: seq<string>, before: set<Unit>, covered: set<Unit>) {
    forall unit :: unit in covered <==>
      unit in before || (unit.OperationUnit? && unit.path == path && unit.method_ in methods)
  }

  lemma NextMethod(r: Release, path: string, methods: seq<string>, i: nat, before: set<Unit>, covered: set<Unit>)
    requires i < |methods| && Distinct(methods) && AllInScope(r, path, methods)
    requires Adds(path, methods[..i], before, covered) && forall unit :: unit in before ==> unit.path != path
    ensures r.InScope(path, methods[i]) && OperationUnit(path, methods[i]) !in covered
    ensures Adds(path, methods[..i + 1], before, covered + {OperationUnit(path, methods[i])})
  {
    hide r.InScope;
    assert methods[i] in methods && methods[i] !in methods[..i];
    assert methods[..i + 1] == methods[..i] + [methods[i]];
  }

  lemma AddsAll(r: Release, path: string, methods: seq<string>, before: set<Unit>, covered: set<Unit>)
    requires AllInScope(r, path, methods) && Adds(path, methods, before, covered)
    ensures forall unit :: unit in covered <==>
      unit in before || (unit.OperationUnit? && unit.path == path && r.InScope(path, unit.method_))
  {
    hide r.InScope;
  }

  /** All paths of two documents, in the order of their names. */
  method ComparePaths(r: Release) returns (reports: seq<Report>)
    requires r.Known()
    ensures r.Exact(reports)
  {
    var paths := SortedStrings(r.before.Keys);
    assert Distinct(paths) && AllNamed(r, paths);
    hide *;
    reports := [];
    ghost var covered: set<Unit> := {};
    NoUnitsCovered(r);
    for i := 0 to |paths|
      invariant r.Covers(reports, covered)
      invariant AllHandled(r, paths[..i], covered)
    {
      var path := paths[i];
      NextPath(r, paths, i);
      HandledMore(r, paths[..i], path, covered);
      if path !in r.after {
        PathRemovedIsExact(r, path);
        r.CoversMore(reports, covered, [PathRemoved(path)], PathUnit(path));
        reports, covered := reports + [PathRemoved(path)], covered + {PathUnit(path)};
      } else {
        ghost var earlier := covered;
        reports, covered := ComparePath(r, path, reports, covered);
        PathHandled(r, paths[..i], path, earlier, covered);
      }
    }
    assert paths[..|paths|] == paths;
    RestIsQuiet(r, paths, covered);
    r.CoversAll(reports, covered);
  }

  ghost predicate AllHandled(r: Release, paths: seq<string>, covered: set<Unit>) {
    forall unit :: unit in covered <==> Handled(r, paths, unit)
  }

  ghost predicate AllNamed(r: Release, paths: seq<string>) {
    forall path :: path in paths <==> path in r.before.Keys
  }

  lemma NextPath(r: Release, paths: seq<string>, i: nat)
    requires i < |paths| && Distinct(paths) && AllNamed(r, paths)
    ensures paths[i] in r.before && paths[i] !in paths[..i]
    ensures paths[..i + 1] == paths[..i] + [paths[i]]
  {
    assert paths[i] in paths;
  }

  lemma RestIsQuiet(r: Release, paths: seq<string>, covered: set<Unit>)
    requires r.Known() && AllHandled(r, paths, covered) && AllNamed(r, paths)
    ensures forall unit :: unit !in covered ==> r.Quiet(unit)
  {
    hide Handled, r.Quiet, r.Known;
    forall unit | unit !in covered ensures r.Quiet(unit) {
      UnhandledIsQuiet(r, paths, unit);
    }
  }

  ghost predicate Handled(r: Release, paths: seq<string>, unit: Unit) {
    && unit.path in paths
    && match unit
       case PathUnit(path) => path !in r.after
       case OperationUnit(path, method_) => r.InScope(path, method_)
  }

  lemma HandledMore(r: Release, paths: seq<string>, path: string, covered: set<Unit>)
    requires path !in paths && path in r.before && AllHandled(r, paths, covered)
    ensures path !in r.after ==> AllHandled(r, paths + [path], covered + {PathUnit(path)})
    ensures forall unit :: unit in covered ==> unit.path != path
  {
  }

  lemma PathHandled(r: Release, paths: seq<string>, path: string, earlier: set<Unit>, covered: set<Unit>)
    requires path !in paths && path in r.before && path in r.after && AllHandled(r, paths, earlier)
    requires forall unit :: unit in covered <==>
      unit in earlier || (unit.OperationUnit? && unit.path == path && r.InScope(path, unit.method_))
    ensures AllHandled(r, paths + [path], covered)
  {
  }

  lemma NoUnitsCovered(r: Release)
    requires r.Known()
    ensures r.Covers([], {})
    ensures AllHandled(r, [], {})
  {
  }

  lemma PathRemovedIsExact(r: Release, path: string)
    requires r.Known() && path in r.before && path !in r.after
    ensures r.Only([PathRemoved(path)], PathUnit(path)) && r.ExactAt([PathRemoved(path)], PathUnit(path))
  {
  }

  lemma UnhandledIsQuiet(r: Release, paths: seq<string>, unit: Unit)
    requires !Handled(r, paths, unit) && forall path :: path in paths <==> path in r.before.Keys
    ensures r.Quiet(unit)
  {
  }

  /** The release that two documents with paths make up. */
  function ReleaseOf(old_: Document, new_: Document): Release
    requires old_.paths.Some? && new_.paths.Some?
  {
    Release(old_.schemas, new_.schemas, old_.paths.value, new_.paths.value)
  }

  /** The gate: exact reports, and silence exactly for compatible documents. */
  method BreakingChanges(old_: Document, new_: Document) returns (reports: seq<Report>)
    requires old_.paths.Some? && new_.paths.Some? ==> ReleaseOf(old_, new_).Known()
    ensures old_.paths.None? || new_.paths.None? ==> reports == [PathsMissing]
    ensures old_.paths.Some? && new_.paths.Some? ==>
      && ReleaseOf(old_, new_).Exact(reports)
      && Distinct(reports)
      && (reports == [] <==> ReleaseOf(old_, new_).Compatible())
  {
    if old_.paths.None? || new_.paths.None? {
      return [PathsMissing];
    }
    var r := ReleaseOf(old_, new_);
    hide *;
    var all := ComparePaths(r);
    reports := Unique(all);
    r.SameReportsExact(all, reports);
    ExactReleaseIsCompatible(r, reports);
  }

  lemma ExactReleaseIsCompatible(r: Release, reports: seq<Report>)
    requires r.Known() && r.Exact(reports)
    ensures reports == [] <==> r.Compatible()
  {
    if reports != [] {
      var report := reports[0];
      assert report in reports;
      ReportedIsIncompatible(r, reports, report);
    } else {
      SilentIsCompatible(r, reports);
    }
  }

  lemma ReportedIsIncompatible(r: Release, reports: seq<Report>, report: Report)
    requires r.Known() && r.Exact(reports) && report in reports
    ensures !r.Compatible()
  {
    assert r.ExactAt(reports, UnitOf(report));
    if report.OperationBroken? && r.Comparable(report.path, report.method_) {
      var c := r.ComparandAt(report.path, report.method_);
      hide c.Exact, c.Compatible, c.Known;
      var findings :| c.Exact(findings) && r.OperationFindings(reports, report.path, report.method_, findings);
      assert report.finding in findings;
      ExactIsCompatible(c, findings);
    }
  }

  lemma SilentIsCompatible(r: Release, reports: seq<Report>)
    requires r.Known() && r.Exact(reports) && reports == []
    ensures r.Compatible()
  {
    forall path | path in r.before ensures path in r.after {
      assert r.ExactAt(reports, PathUnit(path));
    }
    forall path, method_ | r.InScope(path, method_)
      ensures r.Comparable(path, method_) && r.ComparandAt(path, method_).Compatible()
    {
      SilentOperation(r, reports, path, method_);
    }
  }

  lemma SilentOperation(r: Release, reports: seq<Report>, path: string, method_: string)
    requires r.Known() && r.Exact(reports) && reports == [] && r.InScope(path, method_)
    ensures r.Comparable(path, method_) && r.ComparandAt(path, method_).Compatible()
  {
    assert r.ExactAt(reports, OperationUnit(path, method_));
    assert r.Comparable(path, method_);
    var c := r.ComparandAt(path, method_);
    assert c.Known();
    hide c.Exact, c.Compatible, c.Known;
    var findings :| c.Exact(findings) && r.OperationFindings(reports, path, method_, findings);
    assert forall finding :: finding !in findings;
    FirstIsElement(findings);
    ExactIsCompatible(c, findings);
  }

  // What a silent gate means for clients of the old release.

  /** A part that both releases describe with a schema, in an operation both declare. */
  ghost predicate SharedPart(r: Release, path: string, method_: string, part: Part, pair: Pair)
    requires r.Known()
  {
    && r.InScope(path, method_) && r.Comparable(path, method_)
    && r.ComparandAt(path, method_).Schemas(part) == Some(pair)
  }

  lemma SharedPartIsCompatible(r: Release, path: string, method_: string, part: Part, pair: Pair)
    requires r.Known() && r.Compatible() && SharedPart(r, path, method_, part, pair)
    ensures r.oldSchemas.Closed() && r.newSchemas.Closed() && PairOf(r.oldSchemas, r.newSchemas, pair)
    ensures !Incompatible(part.Side(), r.oldSchemas, r.newSchemas, Resolved(r.oldSchemas, r.newSchemas, pair))
  {
    var c := r.ComparandAt(path, method_);
    assert c.Known() && c.Compatible();
    assert c.CompatibleAt(part);
    hide c.Schemas, Incompatible;
  }

  /**
   * When the gate reports nothing, what one release accepts for a parameter, body or response is accepted by the
   * other exactly when the keywords, fields and items that only the other declares accept it.
   */
  lemma SilentReleaseDecides(matches: OpenApiSoundness.Matcher, r: Release, path: string, method_: string, part: Part,
                             pair: Pair, v: Json)
    requires r.Known() && r.Compatible() && SharedPart(r, path, method_, part, pair)
    requires r.oldSchemas.Closed() && r.newSchemas.Closed() && PairOf(r.oldSchemas, r.newSchemas, pair)
    requires OpenApiSoundness.Valid(matches,
                                    OpenApiSoundness.SourceSpec(part.Side(), r.oldSchemas, r.newSchemas),
                                    OpenApiSoundness.SourceId(part.Side(), pair), v)
    ensures OpenApiSoundness.Valid(matches,
                                   OpenApiSoundness.TargetSpec(part.Side(), r.oldSchemas, r.newSchemas),
                                   OpenApiSoundness.TargetId(part.Side(), pair), v)
       <==> OpenApiSoundness.AddedAccepts(matches, part.Side(), r.oldSchemas, r.newSchemas, pair, v)
  {
    var direction := part.Side();
    hide r.Compatible, r.Known, SharedPart, OpenApiSoundness.Valid, OpenApiSoundness.AddedAccepts, Incompatible;
    SharedPartIsCompatible(r, path, method_, part, pair);
    OpenApiSoundness.SilentGateDecides(matches, direction, r.oldSchemas, r.newSchemas, pair, v);
  }

  /**
   * When the gate reports nothing, a parameter or request body that the old
   * release accepts, and that uses only fields it declares, is accepted by the
   * new release too, wherever the new schemas add no keyword kind of their own.
   */
  lemma OldRequestsStayValid(matches: OpenApiSoundness.Matcher, r: Release, path: string, method_: string, part: Part,
                             pair: Pair, v: Json)
    requires r.Known() && r.Compatible() && SharedPart(r, path, method_, part, pair) && !part.ResponseMedia?
    requires r.oldSchemas.Closed() && r.newSchemas.Closed() && PairOf(r.oldSchemas, r.newSchemas, pair)
    requires OpenApiSoundness.InFragment(Request, r.oldSchemas, r.newSchemas,
                                         Resolved(r.oldSchemas, r.newSchemas, pair))
    requires OpenApiSoundness.UsesOldFields(r.oldSchemas, r.newSchemas, Resolved(r.oldSchemas, r.newSchemas, pair), v)
    requires OpenApiSoundness.Valid(matches, r.oldSchemas, pair.0, v)
    ensures OpenApiSoundness.Valid(matches, r.newSchemas, pair.1, v)
  {
    assert part.Side() == Request;
    hide *;
    SharedPartIsCompatible(r, path, method_, part, pair);
    OpenApiSoundness.SilentGateKeepsRequests(matches, r.oldSchemas, r.newSchemas, pair.0, pair.1, v);
  }

  /** When the gate reports nothing, every response of the new release still reads as one of the old. */
  lemma NewResponsesStayReadable(matches: OpenApiSoundness.Matcher, r: Release, path: string, method_: string,
                                 part: Part, pair: Pair, v: Json)
    requires r.Known() && r.Compatible() && SharedPart(r, path, method_, part, pair) && part.ResponseMedia?
    requires r.oldSchemas.Closed() && r.newSchemas.Closed() && PairOf(r.oldSchemas, r.newSchemas, pair)
    requires OpenApiSoundness.InFragment(Response, r.oldSchemas, r.newSchemas,
                                         Resolved(r.oldSchemas, r.newSchemas, pair))
    requires OpenApiSoundness.Valid(matches, r.newSchemas, pair.1, v)
    ensures OpenApiSoundness.Valid(matches, r.oldSchemas, pair.0, v)
  {
    assert part.Side() == Response;
    hide *;
    SharedPartIsCompatible(r, path, method_, part, pair);
    OpenApiSoundness.SilentGateKeepsResponses(matches, r.oldSchemas, r.newSchemas, pair.0, pair.1, v);
  }
}
