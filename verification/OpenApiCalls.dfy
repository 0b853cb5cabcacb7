/**
 * What the operation-level reports of the compatibility gate mean for clients:
 * which calls an operation takes, and which responses it offers.
 */
module OpenApiCalls {
  import opened Sequences
  import opened OpenApiSchema
  import opened OpenApiCompat
  import opened OpenApiOperations
  import OpenApiMeaning

  // Calls, schemas aside.

  /** The parameters a client supplies, by key, and the media type of its body, if it sends one. */
  datatype Call = Call(parameters: set<string>, media: Option<string>)

  /** Every required parameter is there, every supplied one is declared, and the body is one the operation takes. */
  predicate Takes(v: View, call: Call) {
    && call.parameters <= v.parameters.Keys
    && (forall key :: key in v.parameters && v.parameters[key].Parameter? && v.parameters[key].required ==>
          key in call.parameters)
    && match call.media
       case None => v.body.NoBody? || !v.body.required
       case Some(media) => v.body.Body? && media in v.body.content
  }

  /** What the gate does not look at: a common parameter or body that was optional and is now required. */
  predicate TurnsRequired(o: View, n: View) {
    || (exists key :: key in o.parameters && key in n.parameters && Demands(n, key) && !Demands(o, key))
    || (o.body.Body? && n.body.Body? && n.body.required && !o.body.required)
  }

  predicate Demands(v: View, key: string)
    requires key in v.parameters
  {
    v.parameters[key].Parameter? && v.parameters[key].required
  }

  /** Nothing is reported about parameters and bodies apart from their schemas. */
  ghost predicate RequestsUnreported(findings: seq<Finding>) {
    forall finding :: finding in findings && !finding.problem.SchemaBroken? ==>
      !finding.part.ParameterPart? && !finding.part.RequestBody? && !finding.part.RequestMedia?
  }

  /** Every call the old operation takes is one the new operation takes. */
  ghost predicate CallsStayTaken(o: View, n: View) {
    forall call :: Takes(o, call) ==> Takes(n, call)
  }

  /** The findings about parameters and bodies, in terms of the two operations. */
  lemma RequestFindingsIff(c: Comparand, findings: seq<Finding>)
    requires c.Known() && c.Exact(findings)
    ensures forall key :: Finding(ParameterPart(key), Removed) in findings <==>
      key in c.o.parameters && key !in c.n.parameters
    ensures forall key :: Finding(ParameterPart(key), NewlyRequired) in findings <==>
      key in c.n.parameters && key !in c.o.parameters && Demands(c.n, key)
    ensures Finding(RequestBody, Removed) in findings <==> c.o.body.Body? && c.n.body.NoBody?
    ensures Finding(RequestBody, NewlyRequired) in findings <==>
      c.o.body.NoBody? && c.n.body.Body? && c.n.body.required
    ensures forall media :: Finding(RequestMedia(media), Removed) in findings <==>
      c.o.body.Body? && c.n.body.Body? && media in c.o.body.content && media !in c.n.body.content
    ensures forall media :: Finding(RequestMedia(media), NewlyRequired) !in findings
  {
    forall part: Part
      ensures Finding(part, Removed) in findings <==> c.Due(part, Removed)
      ensures Finding(part, NewlyRequired) in findings <==> c.Due(part, NewlyRequired)
    {
      PartFindings(c, findings, part);
    }
    hide c.Exact, c.Known;
  }

  lemma PartFindings(c: Comparand, findings: seq<Finding>, part: Part)
    requires c.Known() && c.Exact(findings)
    ensures Finding(part, Removed) in findings <==> c.Due(part, Removed)
    ensures Finding(part, NewlyRequired) in findings <==> c.Due(part, NewlyRequired)
  {
    assert c.ExactAt(findings, part);
    hide c.Due, c.Schemas, c.Known;
  }

  /** Nothing is reported about requests exactly when none of the five kinds of finding is. */
  lemma UnreportedMeans(c: Comparand, findings: seq<Finding>)
    requires c.Known() && c.Exact(findings)
    ensures RequestsUnreported(findings) <==>
      && (forall key :: key in c.o.parameters ==> key in c.n.parameters)
      && (forall key :: key in c.n.parameters && key !in c.o.parameters ==> !Demands(c.n, key))
      && !(c.o.body.Body? && c.n.body.NoBody?)
      && !(c.o.body.NoBody? && c.n.body.Body? && c.n.body.required)
      && (c.o.body.Body? && c.n.body.Body? ==>
            forall media :: media in c.o.body.content ==> media in c.n.body.content)
  {
    RequestFindingsIff(c, findings);
    hide c.Exact, c.Known, Demands;
    if RequestsUnreported(findings) {
      forall key | key in c.o.parameters ensures key in c.n.parameters {
        assert Finding(ParameterPart(key), Removed) in findings ==> false;
      }
      forall key | key in c.n.parameters && key !in c.o.parameters ensures !Demands(c.n, key) {
        assert Finding(ParameterPart(key), NewlyRequired) in findings ==> false;
      }
      assert Finding(RequestBody, Removed) !in findings && Finding(RequestBody, NewlyRequired) !in findings;
      if c.o.body.Body? && c.n.body.Body? {
        forall media | media in c.o.body.content ensures media in c.n.body.content {
          assert Finding(RequestMedia(media), Removed) in findings ==> false;
        }
      }
    }
  }

  /**
   * Nothing is reported about an operation's requests, and nothing common turns required, exactly when every call
   * that the old operation takes is one that the new operation takes.
   */
  lemma CallsStayTakenIff(c: Comparand, findings: seq<Finding>)
    requires c.Known() && c.Exact(findings)
    requires c.o.body.Body? ==> c.o.body.content != map[]
    ensures CallsStayTaken(c.o, c.n) <==> RequestsUnreported(findings) && !TurnsRequired(c.o, c.n)
  {
    UnreportedMeans(c, findings);
    hide c.Exact, c.Known, RequestsUnreported;
    if !TurnsRequired(c.o, c.n) && RequestsUnreported(findings) {
      forall call | Takes(c.o, call) ensures Takes(c.n, call) {
      }
    }
    if CallsStayTaken(c.o, c.n) {
      KeptParameters(c.o, c.n);
      KeptBodies(c.o, c.n);
    }
  }

  /** A call with every parameter the operation declares, and a body where it takes one. */
  lemma FullCall(v: View) returns (call: Call)
    requires v.body.Body? ==> v.body.content != map[]
    ensures Takes(v, call) && call.parameters == v.parameters.Keys && (v.body.Body? ==> call.media.Some?)
  {
    call := Call(v.parameters.Keys, None);
    if v.body.Body? {
      var media :| media in v.body.content;
      call := Call(v.parameters.Keys, Some(media));
    }
  }

  lemma KeptParameters(o: View, n: View)
    requires CallsStayTaken(o, n) && (o.body.Body? ==> o.body.content != map[])
    ensures forall key :: key in o.parameters ==> key in n.parameters
    ensures forall key :: key in n.parameters && Demands(n, key) ==> key in o.parameters && Demands(o, key)
  {
    var full := FullCall(o);
    assert Takes(n, full);
    forall key | key in n.parameters && Demands(n, key) ensures key in o.parameters && Demands(o, key) {
      if key in o.parameters {
        WithoutParameter(o, full, key);
      }
    }
  }

  lemma WithoutParameter(v: View, call: Call, key: string)
    requires Takes(v, call) && key in v.parameters
    ensures Takes(v, call.(parameters := call.parameters - {key})) <==> !Demands(v, key)
  {
  }

  lemma KeptBodies(o: View, n: View)
    requires CallsStayTaken(o, n) && (o.body.Body? ==> o.body.content != map[])
    ensures o.body.Body? ==> n.body.Body? && forall media :: media in o.body.content ==> media in n.body.content
    ensures n.body.Body? && n.body.required ==> o.body.Body? && o.body.required
  {
    var full := FullCall(o);
    assert Takes(n, full);
    if o.body.Body? {
      forall media | media in o.body.content ensures media in n.body.content {
        assert Takes(o, full.(media := Some(media)));
      }
      if !o.body.required {
        assert Takes(o, full.(media := None));
      }
    }
  }

  /** A parameter that turns required breaks a call and is not reported. */
  lemma TurnedRequiredIsMissed(schemas: Spec, schema: NodeId) returns (c: Comparand)
    requires schemas.Closed() && schema in schemas.nodes
    ensures c.Known() && c.oldSchemas == c.newSchemas == schemas
    ensures forall findings :: c.Exact(findings) ==> RequestsUnreported(findings)
    ensures !CallsStayTaken(c.o, c.n)
  {
    var before := Parameter("query", "page", schema, false);
    c := Comparand(schemas, schemas, View(map["query:page" := before], NoBody, map[]),
                   View(map["query:page" := before.(required := true)], NoBody, map[]));
    assert c.Known() && Demands(c.n, "query:page");
    assert Takes(c.o, Call({}, None)) && !Takes(c.n, Call({}, None));
    hide c.Exact, c.Known, RequestsUnreported;
    forall findings | c.Exact(findings) ensures RequestsUnreported(findings) {
      UnreportedMeans(c, findings);
    }
  }

  // Offers.

  /** A response the operation may give, with a media type or without. */
  predicate Offers(v: View, status: string, media: Option<string>) {
    && status in v.responses
    && (media.Some? ==> v.responses[status].Content? && media.value in v.responses[status].media)
  }

  /** Nothing is reported about responses apart from their schemas. */
  ghost predicate ResponsesUnreported(findings: seq<Finding>) {
    forall finding :: finding in findings && !finding.problem.SchemaBroken? ==>
      !finding.part.ResponseStatus? && !finding.part.ResponseMedia?
  }

  /** The findings about responses, in terms of what the two operations offer. */
  lemma ResponseFindingsIff(c: Comparand, findings: seq<Finding>, status: string, media: string)
    requires c.Known() && c.Exact(findings)
    ensures Finding(ResponseStatus(status), Removed) in findings <==>
      Offers(c.o, status, None) && !Offers(c.n, status, None)
    ensures Finding(ResponseMedia(status, media), Removed) in findings <==>
      && Offers(c.o, status, Some(media)) && !Offers(c.n, status, Some(media))
      && status in c.n.responses && c.n.responses[status].Content?
    ensures Finding(ResponseStatus(status), NewlyRequired) !in findings
    ensures Finding(ResponseMedia(status, media), NewlyRequired) !in findings
  {
    PartFindings(c, findings, ResponseStatus(status));
    PartFindings(c, findings, ResponseMedia(status, media));
    hide c.Exact, c.Known;
  }

  /** The offer stands, or the new response has contents that are no mapping, which the gate passes over. */
  predicate Stands(n: View, status: string, media: Option<string>) {
    Offers(n, status, media) || (status in n.responses && n.responses[status].MalformedContent?)
  }

  ghost predicate OffersStand(o: View, n: View) {
    forall status, media :: Offers(o, status, media) ==> Stands(n, status, media)
  }

  /** Nothing is reported about responses exactly when every old offer stands. */
  lemma OffersStandIff(c: Comparand, findings: seq<Finding>)
    requires c.Known() && c.Exact(findings)
    ensures ResponsesUnreported(findings) <==> OffersStand(c.o, c.n)
  {
    hide c.Exact, c.Known, Offers, Stands;
    if ResponsesUnreported(findings) {
      forall status, media | Offers(c.o, status, media) ensures Stands(c.n, status, media) {
        UnreportedStands(c, findings, status, media);
      }
    }
    if OffersStand(c.o, c.n) {
      forall finding | finding in findings && !finding.problem.SchemaBroken?
        ensures !finding.part.ResponseStatus? && !finding.part.ResponseMedia?
      {
        AboutResponses(c, findings, finding);
      }
    }
  }

  lemma AboutResponses(c: Comparand, findings: seq<Finding>, finding: Finding)
    requires c.Known() && c.Exact(findings) && OffersStand(c.o, c.n) && finding in findings
    ensures finding.part.ResponseStatus? || finding.part.ResponseMedia? ==> finding.problem.SchemaBroken?
  {
    hide c.Exact, c.Known, Offers, Stands;
    if finding.part.ResponseStatus? {
      StandingIsUnreported(c, findings, finding.part.status, "");
      assert finding == Finding(ResponseStatus(finding.part.status), finding.problem);
    } else if finding.part.ResponseMedia? {
      StandingIsUnreported(c, findings, finding.part.status, finding.part.media);
      assert finding == Finding(ResponseMedia(finding.part.status, finding.part.media), finding.problem);
    }
  }

  lemma UnreportedStands(c: Comparand, findings: seq<Finding>, status: string, media: Option<string>)
    requires c.Known() && c.Exact(findings) && ResponsesUnreported(findings) && Offers(c.o, status, media)
    ensures Stands(c.n, status, media)
  {
    ResponseFindingsIff(c, findings, status, if media.Some? then media.value else "");
    hide c.Exact, c.Known;
    assert Finding(ResponseStatus(status), Removed) !in findings;
    if media.Some? {
      assert Finding(ResponseMedia(status, media.value), Removed) !in findings;
    }
  }

  lemma StandingIsUnreported(c: Comparand, findings: seq<Finding>, status: string, media: string)
    requires c.Known() && c.Exact(findings)
    requires Offers(c.o, status, None) ==> Stands(c.n, status, None)
    requires Offers(c.o, status, Some(media)) ==> Stands(c.n, status, Some(media))
    ensures forall problem :: Finding(ResponseStatus(status), problem) in findings ==> problem.SchemaBroken?
    ensures forall problem :: Finding(ResponseMedia(status, media), problem) in findings ==> problem.SchemaBroken?
  {
    ResponseFindingsIff(c, findings, status, media);
    hide c.Exact, c.Known;
  }

  // Whole operations.

  /** An operation of one of the seven methods the gate looks at, under a path both releases have. */
  predicate Declares(r: Release, path: string, method_: string) {
    && path in r.before && path in r.after && method_ in r.before[path].operations
    && method_ in ["get", "put", "post", "delete", "patch", "options", "head"]
  }

  /** Removed paths, removed operations and unreadable ones are reported exactly where there are any. */
  lemma ReleaseReportsIff(r: Release, reports: seq<Report>, path: string, method_: string)
    requires r.Known() && r.Exact(reports)
    ensures PathRemoved(path) in reports <==> path in r.before && path !in r.after
    ensures OperationRemoved(path, method_) in reports <==>
      Declares(r, path, method_) && method_ !in r.after[path].operations
    ensures InvalidOperation(path, method_) in reports <==>
      && Declares(r, path, method_) && method_ in r.after[path].operations
      && (r.before[path].operations[method_].Malformed? || r.after[path].operations[method_].Malformed?)
    ensures (exists finding :: OperationBroken(path, method_, finding) in reports) ==>
      && Declares(r, path, method_) && method_ in r.after[path].operations
      && r.before[path].operations[method_].Operation? && r.after[path].operations[method_].Operation?
  {
    assert r.ExactAt(reports, PathUnit(path)) && r.ExactAt(reports, OperationUnit(path, method_));
    hide r.Known, r.Exact;
    assert r.InScope(path, method_) <==> Declares(r, path, method_);
  }

  // Schemas that only grew.

  /** No finding of an exact account mentions a place at which a part's schemas were only widened. */
  lemma WidenedPlacesAreUnreported(c: Comparand, findings: seq<Finding>, part: Part, p: Pair, location: seq<Step>,
                                   what: Break)
    requires c.Known() && c.Exact(findings) && c.Schemas(part).Some?
    requires c.TaskOf(part).Known(p) && c.TaskOf(part).Ready() && c.TaskOf(part).At(location, p)
    requires OpenApiMeaning.OnlyWidened(part.Side(), c.oldSchemas.nodes[p.0], c.newSchemas.nodes[p.1])
    ensures Finding(part, SchemaBroken(Change(location, what))) !in findings
  {
    assert c.ExactAt(findings, part);
    hide c.Schemas, c.Due, Faithful, OpenApiMeaning.OnlyWidened;
    var changes :| Faithful(c.TaskOf(part), changes) && c.SchemaFindings(findings, part, changes);
    OpenApiMeaning.WideningIsSilent(c.TaskOf(part), changes, p, location, what);
  }
}
