/**
 * The stages after the retry overlay: routes for what stayed unresolved, and
 * the coverage checks and confusion counts of the detection report.
 */
module FailureRoutes {
  import opened Sequences
  import opened Sorting
  import opened RunSummaries
  import opened OperationalRetries

  const PLAN_SCHEMA := "folynta.public-core-operational-retry-plan.v1"

  datatype Route = Route(suite: string, caseId: string, primary: int, candidateModels: seq<string>)

  datatype Payload = Payload(planned: nat, unresolved: nat, recovered: int, routes: seq<Route>)

  datatype RouteError = RoutesExist | PlanInvalid | BadSummaries | BadCase

  function RouteOf(failure: Failure): Route {
    Route(failure.suite, failure.caseId, failure.primary,
          if failure.suite != "parsebench" then ["paddleocr-vl-1.6", "deepseek-ocr-2"] else ["paddleocr-vl-1.6"])
  }

  predicate RouteLe(a: Route, b: Route) {
    PairLe((a.suite, a.caseId), (b.suite, b.caseId))
  }

  predicate SummariesOk(trees: Trees) {
    forall worker, suite :: 0 <= worker < 4 && suite in SUITES ==> SummaryOk(trees, worker, suite)
  }

  predicate SummaryOk(trees: Trees, worker: int, suite: string) {
    worker in trees && suite in trees[worker].summaries && SingleRepeat(trees[worker].summaries[suite])
  }

  function Status(trees: Trees, failure: Failure): Option<string> {
    var k := Target(trees, failure);
    if k.None? then None else Some(CasesAt(trees, failure.primary, failure.suite)[k.value].status)
  }

  predicate Routable(trees: Trees, failure: Failure) {
    0 <= failure.primary < 4 && IsSuite(failure.suite) && Status(trees, failure) in {Some("completed"), Some("failed")}
  }

  /** The planned cases that are still failed, in plan order. */
  function StillFailed(trees: Trees, failures: seq<Failure>): seq<Failure> {
    if failures == [] then []
    else
      var last := failures[|failures| - 1];
      StillFailed(trees, failures[..|failures| - 1]) + if Status(trees, last) == Some("failed") then [last] else []
  }

  function RoutesOf(failures: seq<Failure>): seq<Route> {
    seq(|failures|, k requires 0 <= k < |failures| => RouteOf(failures[k]))
  }

  predicate PlanIdentityOk(plan: Plan) {
    plan.schema == PLAN_SCHEMA && plan.failedInputCount == |plan.failures|
  }

  /** What the builder asks of a composite and a plan. */
  ghost predicate Buildable(trees: Trees, plan: Plan) {
    && PlanIdentityOk(plan) && SummariesOk(trees) && NamesCasesOnce(plan.failures)
    && forall failure :: failure in plan.failures ==> Routable(trees, failure)
  }

  method BuildRoutes(trees: Trees, plan: Plan, outputExists: bool) returns (result: Result<Payload, RouteError>)
    ensures result.Ok? <==> !outputExists && Buildable(trees, plan)
    ensures result.Ok? ==>
      && ListsUnresolved(result.value.routes, trees, plan.failures)
      && result.value.routes == Sort(RouteLe, RoutesOf(StillFailed(trees, plan.failures)))
      && result.value.planned == |plan.failures|
      && result.value.unresolved == |StillFailed(trees, plan.failures)|
      && result.value.unresolved + result.value.recovered == result.value.planned
  {
    if outputExists {
      return Err(RoutesExist);
    }
    if !PlanIdentityOk(plan) {
      return Err(PlanInvalid);
    }
    if !SummariesOk(trees) {
      return Err(BadSummaries);
    }
    hide PlanIdentityOk, SummariesOk, NamesCasesOnce, Routable, StillFailed, RoutesOf, RouteLe, Sort;
    var routes := CollectRoutes(trees, plan.failures);
    if routes.None? {
      return Err(BadCase);
    }
    SortPermutes(RouteLe, routes.value);
    RoutesListUnresolved(trees, plan.failures);
    return Ok(Payload(|plan.failures|, |routes.value|, |plan.failures| - |routes.value|, Sort(RouteLe, routes.value)));
  }

  /** The route of a planned case: both alternate models, save for the layout suite, which has Paddle alone. */
  predicate Describes(route: Route, failure: Failure) {
    && route.suite == failure.suite && route.caseId == failure.caseId && route.primary == failure.primary
    && route.candidateModels == if failure.suite == "parsebench" then ["paddleocr-vl-1.6"]
                                else ["paddleocr-vl-1.6", "deepseek-ocr-2"]
  }

  /** One route for each planned case that is still failed and no others, by suite and then case. */
  ghost predicate ListsUnresolved(routes: seq<Route>, trees: Trees, failures: seq<Failure>) {
    && (forall route :: route in routes <==>
          exists failure :: failure in failures && Status(trees, failure) == Some("failed") &&
            Describes(route, failure))
    && (forall i, j :: 0 <= i < j < |routes| ==>
          && StringLe(routes[i].suite, routes[j].suite)
          && (routes[i].suite == routes[j].suite ==> StringLe(routes[i].caseId, routes[j].caseId)))
  }

  lemma RoutesListUnresolved(trees: Trees, failures: seq<Failure>)
    ensures ListsUnresolved(Sort(RouteLe, RoutesOf(StillFailed(trees, failures))), trees, failures)
  {
    var routes := RoutesOf(StillFailed(trees, failures));
    StillFailedAre(trees, failures);
    SortPermutes(RouteLe, routes);
    RouteOrder();
    SortSorts(RouteLe, routes);
    StringOrder();
    hide Sort, StringLe, Status, StillFailed;
    forall route ensures route in routes <==>
      exists failure :: failure in failures && Status(trees, failure) == Some("failed") && Describes(route, failure)
    {
      RouteOfFailure(StillFailed(trees, failures), route);
    }
  }

  lemma RouteOfFailure(failures: seq<Failure>, route: Route)
    ensures route in RoutesOf(failures) <==> exists failure :: failure in failures && Describes(route, failure)
  {
    if failure :| failure in failures && Describes(route, failure) {
      var k :| 0 <= k < |failures| && failures[k] == failure;
      assert RoutesOf(failures)[k] == route;
    }
    if route in RoutesOf(failures) {
      var k :| 0 <= k < |failures| && RoutesOf(failures)[k] == route;
      assert failures[k] in failures && Describes(route, failures[k]);
    }
  }

  lemma RouteOrder()
    ensures TotalPreorder(RouteLe)
  {
    hide PairLe;
    PairOrder();
  }

  lemma {:induction false} StillFailedAre(trees: Trees, failures: seq<Failure>)
    ensures forall failure :: failure in StillFailed(trees, failures) <==>
      failure in failures && Status(trees, failure) == Some("failed")
  {
    hide Status;
    if failures != [] {
      StillFailedAre(trees, failures[..|failures| - 1]);
      assert failures == failures[..|failures| - 1] + [failures[|failures| - 1]];
    }
  }

  function KeysOf(failures: seq<Failure>): set<FileKey> {
    set failure | failure in failures :: Key(failure)
  }

  /** The loop over the planned failures; it stops at a repeated or unusable case. */
  method CollectRoutes(trees: Trees, failures: seq<Failure>) returns (routes: Option<seq<Route>>)
    ensures routes.Some? <==> NamesCasesOnce(failures) && forall failure :: failure in failures ==>
      Routable(trees, failure)
    ensures routes.Some? ==> routes.value == RoutesOf(StillFailed(trees, failures))
    ensures routes.Some? ==> |routes.value| == |StillFailed(trees, failures)|
  {
    var collected: seq<Route> := [];
    var observed: set<FileKey> := {};
    NoRoutesYet(trees);
    hide *;
    for k := 0 to |failures|
      invariant observed == KeysOf(failures[..k])
      invariant NamesCasesOnce(failures[..k])
      invariant forall i :: 0 <= i < k ==> Routable(trees, failures[i])
      invariant collected == RoutesOf(StillFailed(trees, failures[..k]))
    {
      var failure := failures[k];
      assert failures[..k + 1] == failures[..k] + [failure];
      assert failure in failures;
      NextRoute(trees, failures[..k], failure);
      PrefixNamesOnce(failures, k + 1);
      if Key(failure) in observed {
        return None;
      }
      observed := observed + {Key(failure)};
      if !Routable(trees, failure) {
        return None;
      }
      if Status(trees, failure) == Some("failed") {
        collected := collected + [RouteOf(failure)];
      }
    }
    assert failures[..|failures|] == failures;
    RoutesLength(StillFailed(trees, failures));
    return Some(collected);
  }

  lemma NoRoutesYet(trees: Trees)
    ensures KeysOf([]) == {} && NamesCasesOnce([]) && RoutesOf(StillFailed(trees, [])) == []
  {
  }

  lemma RoutesLength(failures: seq<Failure>)
    ensures |RoutesOf(failures)| == |failures|
  {
  }

  lemma PrefixNamesOnce(failures: seq<Failure>, k: nat)
    requires k <= |failures|
    ensures NamesCasesOnce(failures) ==> NamesCasesOnce(failures[..k])
  {
  }

  lemma NextRoute(trees: Trees, done: seq<Failure>, next: Failure)
    ensures KeysOf(done + [next]) == KeysOf(done) + {Key(next)}
    ensures NamesCasesOnce(done + [next]) <==> NamesCasesOnce(done) && Key(next) !in KeysOf(done)
    ensures RoutesOf(StillFailed(trees, done + [next]))
         == RoutesOf(StillFailed(trees, done)) + if Status(trees, next) == Some("failed") then [RouteOf(next)] else []
  {
    hide Status;
    NextKey(done, next);
    NextNamedOnce(done, next);
    assert (done + [next])[..|done|] == done;
  }

  lemma NextKey(done: seq<Failure>, next: Failure)
    ensures KeysOf(done + [next]) == KeysOf(done) + {Key(next)}
  {
    forall failure ensures failure in done + [next] <==> failure in done || failure == next {
    }
  }

  lemma NextNamedOnce(done: seq<Failure>, next: Failure)
    ensures NamesCasesOnce(done + [next]) <==> NamesCasesOnce(done) && Key(next) !in KeysOf(done)
  {
    var longer := done + [next];
    if NamesCasesOnce(longer) {
      PrefixNamesOnce(longer, |done|);
      assert longer[..|done|] == done;
      forall i | 0 <= i < |done| ensures Key(done[i]) != Key(next) {
        assert longer[i] == done[i] && longer[|done|] == next;
      }
    }
    forall i | 0 <= i < |done| ensures Key(done[i]) in KeysOf(done) {
      assert done[i] in done;
    }
  }

  // The routes of a retried composite.

  /** The planned failures whose retry did not complete. */
  function Remaining(retries: Trees, failures: seq<Failure>): seq<Failure> {
    if failures == [] then []
    else
      var last := failures[|failures| - 1];
      Remaining(retries, failures[..|failures| - 1]) + if Completes(retries, last) then [] else [last]
  }

  lemma {:induction false} RemainingCount(retries: Trees, failures: seq<Failure>)
    ensures |Remaining(retries, failures)| + Accepted(retries, failures) == |failures|
    ensures forall failure :: failure in Remaining(retries, failures) <==>
      failure in failures && !Completes(retries, failure)
  {
    hide Completes;
    if failures != [] {
      RemainingCount(retries, failures[..|failures| - 1]);
      assert failures == failures[..|failures| - 1] + [failures[|failures| - 1]];
    }
  }

  /** After a retry run on a duplicate-free plan a planned case is failed exactly when its retry was. */
  lemma StatusAfterRetries(primaries: Trees, retries: Trees, failures: seq<Failure>, i: nat)
    requires RunOk(primaries, retries, failures) && NamesCasesOnce(failures) && i < |failures|
    ensures Status(After(primaries, retries, failures), failures[i])
         == Some(if Completes(retries, failures[i]) then "completed" else "failed")
  {
    hide RunOk, After, NamesCasesOnce, Find, Completes, RetryCase;
    PlannedCaseOutcome(primaries, retries, failures, i);
  }

  lemma {:induction false} StillFailedIsRemaining(now: Trees, retries: Trees, failures: seq<Failure>)
    requires forall i :: 0 <= i < |failures| ==>
      Status(now, failures[i]) == Some(if Completes(retries, failures[i]) then "completed" else "failed")
    ensures StillFailed(now, failures) == Remaining(retries, failures)
  {
    if failures != [] {
      hide Status, Completes;
      var n := |failures| - 1;
      StillFailedIsRemaining(now, retries, failures[..n]);
      assert "completed"[0] == 'c' && "failed"[0] == 'f';
    }
  }

  /** A retry run leaves the shape of every summary as it was. */
  lemma SummariesStayAsTheyWere(primaries: Trees, retries: Trees, failures: seq<Failure>)
    requires RunOk(primaries, retries, failures)
    ensures SummariesOk(After(primaries, retries, failures)) <==> SummariesOk(primaries)
  {
    var now := After(primaries, retries, failures);
    RunKeepsFrame(primaries, retries, failures);
    hide RunOk, After;
    SameFrameBack(primaries, now);
    if SummariesOk(primaries) {
      SameShape(primaries, now);
    }
    if SummariesOk(now) {
      SameShape(now, primaries);
    }
  }

  lemma SameShape(trees: Trees, others: Trees)
    requires SameFrame(trees, others) && SummariesOk(trees)
    ensures SummariesOk(others)
  {
    forall worker, suite | 0 <= worker < 4 && suite in SUITES ensures SummaryOk(others, worker, suite) {
      assert SummaryOk(trees, worker, suite);
      SameFrameCases(trees, others, worker, suite);
    }
  }

  lemma PlannedSlot(primaries: Trees, retries: Trees, failures: seq<Failure>, i: nat)
    requires RunOk(primaries, retries, failures) && i < |failures|
    ensures failures[i].primary in primaries && IsSuite(failures[i].suite)
  {
    PlannedCase(primaries, retries, failures, i);
    RetryIsKnown(primaries, retries, failures, i);
  }

  lemma {:induction false} RetryIsKnown(primaries: Trees, retries: Trees, failures: seq<Failure>, i: nat)
    requires RunOk(primaries, retries, failures) && i < |failures|
    ensures RetryCase(retries, failures[i]).Some?
    decreases |failures|
  {
    if i < |failures| - 1 {
      RetryIsKnown(primaries, retries, failures[..|failures| - 1], i);
    }
  }

  /** After a retry run the builder finds every planned case, and those still failed are the unresolved retries. */
  lemma RoutesAreUnresolvedRetries(primaries: Trees, retries: Trees, plan: Plan)
    requires RunOk(primaries, retries, plan.failures) && NamesCasesOnce(plan.failures)
    requires primaries.Keys == {0, 1, 2, 3}
    ensures var now := After(primaries, retries, plan.failures);
      && (SummariesOk(now) <==> SummariesOk(primaries))
      && (forall failure :: failure in plan.failures ==> Routable(now, failure))
      && StillFailed(now, plan.failures) == Remaining(retries, plan.failures)
      && |StillFailed(now, plan.failures)| == |plan.failures| - Accepted(retries, plan.failures)
  {
    hide *;
    var now, failures := After(primaries, retries, plan.failures), plan.failures;
    SummariesStayAsTheyWere(primaries, retries, failures);
    forall i | 0 <= i < |failures|
      ensures Status(now, failures[i]) == Some(if Completes(retries, failures[i]) then "completed" else "failed")
      ensures Routable(now, failures[i])
    {
      RoutableAfterRetries(primaries, retries, failures, i);
    }
    StillFailedIsRemaining(now, retries, failures);
    RemainingCount(retries, failures);
  }

  /**
   * From the retry stage to the route builder: whatever the one accepted, the other accepts exactly for a plan of
   * the known schema that names no case twice, over primary summaries of a single repeat; it then routes exactly
   * the cases whose retry failed, as many as the receipt leaves unresolved.
   */
  lemma BuilderAcceptsIff(primarySources: seq<Source>, retrySources: seq<Source>, plan: Plan)
    requires InputsOk(primarySources, retrySources, plan)
    requires RunOk(SourceMap(primarySources), SourceMap(retrySources), plan.failures)
    ensures var retries := SourceMap(retrySources);
      var now := After(SourceMap(primarySources), retries, plan.failures);
      && (Buildable(now, plan) <==>
            plan.schema == PLAN_SCHEMA && NamesCasesOnce(plan.failures) && SummariesOk(SourceMap(primarySources)))
      && (Buildable(now, plan) ==>
            && StillFailed(now, plan.failures) == Remaining(retries, plan.failures)
            && |StillFailed(now, plan.failures)| == |plan.failures| - Accepted(retries, plan.failures))
  {
    var primaries := SourceMap(primarySources);
    assert primaries.Keys == {0, 1, 2, 3} && (PlanIdentityOk(plan) <==> plan.schema == PLAN_SCHEMA);
    hide InputsOk, PlanIdentityOk, SummariesOk, NamesCasesOnce, Routable, StillFailed, Remaining, Accepted, After,
      RunOk, SourceMap;
    if NamesCasesOnce(plan.failures) {
      RoutesAreUnresolvedRetries(primaries, SourceMap(retrySources), plan);
    }
  }

  lemma RoutableAfterRetries(primaries: Trees, retries: Trees, failures: seq<Failure>, i: nat)
    requires RunOk(primaries, retries, failures) && NamesCasesOnce(failures) && i < |failures|
    requires primaries.Keys == {0, 1, 2, 3}
    ensures Status(After(primaries, retries, failures), failures[i])
         == Some(if Completes(retries, failures[i]) then "completed" else "failed")
    ensures Routable(After(primaries, retries, failures), failures[i])
  {
    hide *;
    StatusAfterRetries(primaries, retries, failures, i);
    PlannedSlot(primaries, retries, failures, i);
    RoutableByStatus(After(primaries, retries, failures), failures[i]);
  }

  lemma RoutableByStatus(trees: Trees, failure: Failure)
    requires failure.primary in {0, 1, 2, 3} && IsSuite(failure.suite)
    requires Status(trees, failure) in {Some("completed"), Some("failed")}
    ensures Routable(trees, failure)
  {
  }

  // The detection report.

  const CORPUS_SIZE := 5132

  datatype DetectionError = WrongSize | BadBaseline

  function Routed(plan: Plan): set<FileKey> {
    KeysOf(plan.failures)
  }

  lemma {:induction false} KeysOnce(failures: seq<Failure>)
    ensures |KeysOf(failures)| <= |failures|
    ensures NamesCasesOnce(failures) <==> |KeysOf(failures)| == |failures|
  {
    if failures == [] {
      assert KeysOf(failures) == {};
    } else {
      var done, next := failures[..|failures| - 1], failures[|failures| - 1];
      assert failures == done + [next];
      KeysOnce(done);
      hide NamesCasesOnce, KeysOf;
      NextRoute(map[], done, next);
      if Key(next) in KeysOf(done) {
        assert KeysOf(failures) == KeysOf(done);
      }
    }
  }

  /** The checks the report makes before it believes a plan and an overlay receipt. */
  predicate CoverageOk(plan: Plan, receipt: Receipt) {
    && |Routed(plan)| == plan.failedInputCount
    && receipt.planned == |Routed(plan)|
    && receipt.accepted + receipt.unresolved == receipt.planned
    && receipt.planSha == plan.sha
    && |receipt.outcomes| == receipt.planned
    && (set outcome | outcome in receipt.outcomes :: Key(outcome.failure)) == Routed(plan)
    && CountAccepted(receipt.outcomes) == receipt.accepted
  }

  function CountAccepted(outcomes: seq<Outcome>): nat {
    if outcomes == [] then 0
    else CountAccepted(outcomes[..|outcomes| - 1]) + if outcomes[|outcomes| - 1].accepted then 1 else 0
  }

  /** The positions of the outcomes with this answer. */
  ghost function Answered(outcomes: seq<Outcome>, accepted: bool): set<nat> {
    set k: nat | k < |outcomes| && outcomes[k].accepted == accepted
  }

  lemma {:induction false} AnswersAreCounted(outcomes: seq<Outcome>)
    ensures CountAccepted(outcomes) == |Answered(outcomes, true)|
    ensures |Answered(outcomes, true)| + |Answered(outcomes, false)| == |outcomes|
  {
    if outcomes == [] {
      assert Answered(outcomes, true) == {} && Answered(outcomes, false) == {};
    } else {
      AnswersAreCounted(outcomes[..|outcomes| - 1]);
      AnsweredNext(outcomes, true);
      AnsweredNext(outcomes, false);
      hide Answered;
    }
  }

  lemma AnsweredNext(outcomes: seq<Outcome>, accepted: bool)
    requires outcomes != []
    ensures |Answered(outcomes, accepted)|
         == |Answered(outcomes[..|outcomes| - 1], accepted)| + if outcomes[|outcomes| - 1].accepted == accepted then 1
           else 0
  {
    var n := |outcomes| - 1;
    assert Answered(outcomes, accepted)
        == Answered(outcomes[..n], accepted) + if outcomes[n].accepted == accepted then {n} else {};
  }

  ghost function FailuresOf(outcomes: seq<Outcome>): (failures: seq<Failure>)
    ensures |failures| == |outcomes| && forall k :: 0 <= k < |outcomes| ==> failures[k] == outcomes[k].failure
  {
    seq(|outcomes|, k requires 0 <= k < |outcomes| => outcomes[k].failure)
  }

  ghost predicate Names(failures: seq<Failure>, key: FileKey) {
    exists failure :: failure in failures && Key(failure) == key
  }

  /**
   * The checks pass exactly when plan and outcomes list the same cases, neither any case twice, and the receipt
   * counts the accepted and the other outcomes and is bound to the plan.
   */
  lemma CoverageMeaning(plan: Plan, receipt: Receipt)
    requires plan.failedInputCount == |plan.failures|
    ensures CoverageOk(plan, receipt) <==>
      && NamesCasesOnce(plan.failures) && NamesCasesOnce(FailuresOf(receipt.outcomes))
      && (forall key :: Names(plan.failures, key) <==> Names(FailuresOf(receipt.outcomes), key))
      && receipt.planned == |receipt.outcomes|
      && receipt.accepted == |Answered(receipt.outcomes, true)|
      && receipt.unresolved == |Answered(receipt.outcomes, false)|
      && receipt.planSha == plan.sha
  {
    var listed := FailuresOf(receipt.outcomes);
    KeysOnce(plan.failures);
    KeysOnce(listed);
    AnswersAreCounted(receipt.outcomes);
    SameKeys(receipt.outcomes);
    SameNames(plan.failures, listed);
    hide NamesCasesOnce, CountAccepted, Answered, FailuresOf, Names, KeysOf;
  }

  lemma SameNames(failures: seq<Failure>, others: seq<Failure>)
    ensures KeysOf(failures) == KeysOf(others) <==> forall key :: Names(failures, key) <==> Names(others, key)
  {
    forall key ensures key in KeysOf(failures) <==> Names(failures, key) {
    }
    forall key ensures key in KeysOf(others) <==> Names(others, key) {
    }
    hide Names;
  }

  lemma SameKeys(outcomes: seq<Outcome>)
    ensures (set outcome | outcome in outcomes :: Key(outcome.failure)) == KeysOf(FailuresOf(outcomes))
  {
    var failures := FailuresOf(outcomes);
    forall outcome | outcome in outcomes ensures outcome.failure in failures {
      var k :| 0 <= k < |outcomes| && outcomes[k] == outcome;
      assert failures[k] in failures;
    }
    forall failure | failure in failures ensures exists outcome :: outcome in outcomes && outcome.failure == failure {
      var k :| 0 <= k < |failures| && failures[k] == failure;
      assert outcomes[k] in outcomes;
    }
  }

  lemma {:induction false} OutcomesCount(retries: Trees, failures: seq<Failure>)
    ensures CountAccepted(Outcomes(retries, failures)) == Accepted(retries, failures)
  {
    if failures != [] {
      var done := failures[..|failures| - 1];
      OutcomesCount(retries, done);
      assert Outcomes(retries, failures)[..|failures| - 1] == Outcomes(retries, done);
    }
  }

  lemma OutcomeKeys(retries: Trees, plan: Plan)
    ensures (set outcome | outcome in Outcomes(retries, plan.failures) :: Key(outcome.failure)) == Routed(plan)
  {
    hide Completes;
    var outcomes := Outcomes(retries, plan.failures);
    forall key ensures key in (set outcome | outcome in outcomes :: Key(outcome.failure)) <==> key in Routed(plan) {
      if key in Routed(plan) {
        var k :| 0 <= k < |plan.failures| && Key(plan.failures[k]) == key;
        assert outcomes[k] in outcomes;
      }
    }
  }

  /** A receipt of the retry stage passes the coverage checks exactly when its plan names every case once. */
  lemma CoverageIffNamedOnce(retries: Trees, plan: Plan, receipt: Receipt)
    requires plan.failedInputCount == |plan.failures|
    requires receipt.planSha == plan.sha && receipt.planned == |plan.failures|
    requires receipt.accepted == Accepted(retries, plan.failures)
    requires receipt.accepted + receipt.unresolved == receipt.planned
    requires receipt.outcomes == Outcomes(retries, plan.failures)
    ensures CoverageOk(plan, receipt) <==> NamesCasesOnce(plan.failures)
  {
    KeysOnce(plan.failures);
    OutcomesCount(retries, plan.failures);
    OutcomeKeys(retries, plan);
  }

  // Plans that the retry stage carries out and a later stage refuses.

  const FAILURE := Failure("parsebench", "page", 0, 1)

  /** One failed case in every summary. */
  function FailedTree(suites: set<string>, repeat: int): WorkerTree {
    var run := Run(repeat, [Case("page", "failed", "", 0, "", "")], 0, 1);
    var summary := Summary(EXPECTED_CANDIDATE_ID, EXPECTED_ARTIFACT_SHA256, false, "", [run]);
    WorkerTree(map suite | suite in suites :: summary, map[], map[])
  }

  function FailedPrimary(repeat: int): WorkerTree {
    FailedTree(Elements(SUITES), repeat)
  }

  function FailedPrimaries(repeat: int): seq<Source> {
    var tree := FailedPrimary(repeat);
    [Source(0, tree), Source(1, tree), Source(2, tree), Source(3, tree)]
  }

  function FailedRetries(): seq<Source> {
    [Source(1, FailedTree({"parsebench"}, 1))]
  }

  function FailedPlan(schema: string, failures: seq<Failure>): Plan {
    Plan(schema, "plan", |failures|, true, failures)
  }

  /** A case that is named twice is retried twice, and the receipt fails the coverage checks. */
  lemma RepeatedCaseBreaksCoverage(receipt: Receipt)
    requires receipt.planSha == "plan" && receipt.planned == 2
    requires receipt.accepted == Accepted(SourceMap(FailedRetries()), [FAILURE, FAILURE])
    requires receipt.accepted + receipt.unresolved == receipt.planned
    requires receipt.outcomes == Outcomes(SourceMap(FailedRetries()), [FAILURE, FAILURE])
    ensures var plan := FailedPlan(PLAN_SCHEMA, [FAILURE, FAILURE]);
      && InputsOk(FailedPrimaries(1), FailedRetries(), plan)
      && RunOk(SourceMap(FailedPrimaries(1)), SourceMap(FailedRetries()), plan.failures)
      && !CoverageOk(plan, receipt)
  {
    var plan := FailedPlan(PLAN_SCHEMA, [FAILURE, FAILURE]);
    assert plan.failures == [FAILURE, FAILURE] && plan.failedInputCount == 2 && plan.sha == "plan";
    hide *;
    FailedInputs(1, PLAN_SCHEMA, plan.failures);
    FailedRun(1);
    CoverageIffNamedOnce(SourceMap(FailedRetries()), plan, receipt);
    NamedTwice(FAILURE);
  }

  /** The retry stage reads neither the schema of its plan nor the repeat of its primaries; the builder reads both. */
  lemma RetriedPlanIsRefused(schema: string, repeat: int)
    ensures var plan := FailedPlan(schema, [FAILURE]);
      var primaries, retries := SourceMap(FailedPrimaries(repeat)), SourceMap(FailedRetries());
      && InputsOk(FailedPrimaries(repeat), FailedRetries(), plan)
      && RunOk(primaries, retries, plan.failures) && NamesCasesOnce(plan.failures)
      && (Buildable(After(primaries, retries, plan.failures), plan) <==> schema == PLAN_SCHEMA && repeat == 1)
  {
    var plan := FailedPlan(schema, [FAILURE]);
    assert plan.failures == [FAILURE] && plan.schema == schema;
    assert NamesCasesOnce([FAILURE]);
    hide *;
    FailedInputs(repeat, schema, plan.failures);
    FailedRun(repeat);
    FailedSummaries(repeat);
    BuilderAcceptsIff(FailedPrimaries(repeat), FailedRetries(), plan);
  }

  lemma NamedTwice(failure: Failure)
    ensures !NamesCasesOnce([failure, failure])
  {
    var failures := [failure, failure];
    assert Key(failures[0]) == Key(failures[1]);
  }

  function FourTrees(tree: WorkerTree): Trees {
    map[0 := tree, 1 := tree, 2 := tree, 3 := tree]
  }

  lemma FourSources(tree: WorkerTree)
    ensures SourceMap([Source(0, tree), Source(1, tree), Source(2, tree), Source(3, tree)]) == FourTrees(tree)
  {
    var two, three := [Source(0, tree), Source(1, tree)], [Source(0, tree), Source(1, tree), Source(2, tree)];
    assert [] + [Source(0, tree)] == [Source(0, tree)] && [Source(0, tree)] + [Source(1, tree)] == two;
    assert two + [Source(2, tree)] == three;
    assert three + [Source(3, tree)] == [Source(0, tree), Source(1, tree), Source(2, tree), Source(3, tree)];
    NextSource([], Source(0, tree));
    NextSource([Source(0, tree)], Source(1, tree));
    NextSource(two, Source(2, tree));
    NextSource(three, Source(3, tree));
    hide SourceMap;
    NoSources();
  }

  lemma NoSources()
    ensures SourceMap([]) == map[]
  {
  }

  lemma NextSource(sources: seq<Source>, source: Source)
    ensures SourceMap(sources + [source]) == SourceMap(sources)[source.worker := source.tree]
  {
    assert (sources + [source])[..|sources|] == sources;
  }

  lemma FailedMaps(repeat: int)
    ensures SourceMap(FailedPrimaries(repeat)) == FourTrees(FailedPrimary(repeat))
    ensures SourceMap(FailedRetries()) == map[1 := FailedTree({"parsebench"}, 1)]
  {
    FourSources(FailedPrimary(repeat));
    NoSources();
    NextSource([], Source(1, FailedTree({"parsebench"}, 1)));
    assert [] + [Source(1, FailedTree({"parsebench"}, 1))] == FailedRetries();
    hide SourceMap, FailedTree, FailedPrimary;
  }

  lemma FailedInputs(repeat: int, schema: string, failures: seq<Failure>)
    requires failures == [FAILURE] || failures == [FAILURE, FAILURE]
    ensures InputsOk(FailedPrimaries(repeat), FailedRetries(), FailedPlan(schema, failures))
  {
    FailedMaps(repeat);
    FailedWorkers(failures);
    FailedTreesPresent(repeat);
    FailedTreeValid({"parsebench"});
    FourTreesFour(FailedPrimary(repeat));
    hide SourceMap, FailedTree, FailedPrimary, SummariesPresent, RetriesValid, FourTrees;
  }

  lemma FailedWorkers(failures: seq<Failure>)
    requires failures == [FAILURE] || failures == [FAILURE, FAILURE]
    ensures (set failure | failure in failures :: failure.retryWorker) == {1}
  {
    assert FAILURE in failures;
  }

  lemma FourTreesFour(tree: WorkerTree)
    ensures FourTrees(tree).Keys == {0, 1, 2, 3} && |FourTrees(tree)| == 4
  {
    assert |FourTrees(tree).Keys| == |FourTrees(tree)|;
  }

  lemma FailedTreesPresent(repeat: int)
    ensures SummariesPresent(FourTrees(FailedPrimary(repeat)))
  {
  }

  lemma FailedTreeValid(suites: set<string>)
    ensures RetriesValid(map[1 := FailedTree(suites, 1)])
  {
  }

  lemma FailedSummaries(repeat: int)
    ensures SummariesOk(SourceMap(FailedPrimaries(repeat))) <==> repeat == 1
  {
    FailedMaps(repeat);
    var trees := FourTrees(FailedPrimary(repeat));
    assert SummaryOk(trees, 0, SUITES[0]) <==> repeat == 1;
    hide SourceMap;
  }

  lemma FailedRun(repeat: int)
    ensures var primaries, retries := SourceMap(FailedPrimaries(repeat)), SourceMap(FailedRetries());
      RunOk(primaries, retries, [FAILURE]) && RunOk(primaries, retries, [FAILURE, FAILURE])
  {
    var primaries, retries := SourceMap(FailedPrimaries(repeat)), SourceMap(FailedRetries());
    hide *;
    FailedStepIsIdle(repeat);
    StartOfRun(primaries, retries);
    assert [] + [FAILURE] == [FAILURE] && [FAILURE] + [FAILURE] == [FAILURE, FAILURE];
    NextOfRun(primaries, retries, [], FAILURE);
    NextOfRun(primaries, retries, [FAILURE], FAILURE);
  }

  /** The retry failed again, so the step can be taken and leaves its target failed. */
  lemma FailedStepIsIdle(repeat: int)
    ensures var primaries, retries := SourceMap(FailedPrimaries(repeat)), SourceMap(FailedRetries());
      StepOk(primaries, retries, FAILURE) && StepOk(Step(primaries, retries, FAILURE), retries, FAILURE)
  {
    FailedMaps(repeat);
    assert "parsebench" == SUITES[0];
    var primaries, retries := FourTrees(FailedPrimary(repeat)), map[1 := FailedTree({"parsebench"}, 1)];
    hide SourceMap;
    assert primaries[0] == FailedPrimary(repeat);
    assert RetryCase(retries, FAILURE).value.status == "failed";
    assert "failed"[0] != "completed"[0];
    assert TargetFailed(primaries, FAILURE);
    StepCasesAt(primaries, retries, FAILURE, 0, "parsebench");
  }

  // Confusion counts of the plan against the baseline of the four workers.

  /** The cases of the four workers with a given status, by suite and identifier. */
  ghost predicate Listed(trees: Trees, slots: seq<Slot>, key: FileKey, status: string) {
    exists i :: 0 <= i < |slots| && Holds(trees, slots[i], key, status)
  }

  ghost predicate Holds(trees: Trees, slot: Slot, key: FileKey, status: string) {
    && slot.1 == key.0
    && HasCases(trees, slot.0, slot.1)
    && var cases := CasesAt(trees, slot.0, slot.1);
       exists k :: 0 <= k < |cases| && cases[k].caseId == key.1 && cases[k].status == status
  }

  type Entry = (FileKey, string)

  function Entries(suite: string, cases: seq<Case>): seq<Entry> {
    if cases == [] then []
    else
      var last := cases[|cases| - 1];
      Entries(suite, cases[..|cases| - 1]) + [((suite, last.caseId), last.status)]
  }

  ghost function BaselineEntries(trees: Trees, slots: seq<Slot>): seq<Entry> {
    if slots == [] then []
    else
      var last := slots[|slots| - 1];
      BaselineEntries(trees, slots[..|slots| - 1]) + SlotEntries(trees, last)
  }

  ghost function SlotEntries(trees: Trees, slot: Slot): seq<Entry> {
    if HasCases(trees, slot.0, slot.1) then Entries(slot.1, CasesAt(trees, slot.0, slot.1)) else []
  }

  ghost predicate EntriesOk(entries: seq<Entry>) {
    && (forall i, j :: 0 <= i < j < |entries| ==> entries[i].0 != entries[j].0)
    && (forall i :: 0 <= i < |entries| ==> entries[i].1 == "failed" || entries[i].1 == "completed")
  }

  ghost function EntryKeys(entries: seq<Entry>): set<FileKey> {
    set e | e in entries :: e.0
  }

  ghost function FailedKeys(entries: seq<Entry>): set<FileKey> {
    set e | e in entries && e.1 == "failed" :: e.0
  }

  lemma NextEntry(entries: seq<Entry>, key: FileKey, status: string)
    ensures EntryKeys(entries + [(key, status)]) == EntryKeys(entries) + {key}
    ensures FailedKeys(entries + [(key, status)]) == FailedKeys(entries) + if status == "failed" then {key} else {}
    ensures EntriesOk(entries + [(key, status)]) <==>
      EntriesOk(entries) && key !in EntryKeys(entries) && (status == "failed" || status == "completed")
  {
    var longer := entries + [(key, status)];
    assert longer[|entries|] == (key, status) && longer[..|entries|] == entries;
    forall e ensures e in longer <==> e in entries || e == (key, status) {
    }
    forall i | 0 <= i < |entries| ensures entries[i].0 in EntryKeys(entries) && longer[i] == entries[i] {
      assert entries[i] in entries;
    }
  }

  lemma EntriesOfPrefix(entries: seq<Entry>, more: seq<Entry>)
    ensures EntriesOk(entries + more) ==> EntriesOk(entries)
  {
    assert forall i :: 0 <= i < |entries| ==> (entries + more)[i] == entries[i];
  }

  /** Reads one summary's cases; stops at a repeated key or an unknown status. */
  method LoadCases(suite: string, cases: seq<Case>, ghost before: seq<Entry>, allBefore: set<FileKey>,
                   failedBefore: set<FileKey>)
    returns (ok: bool, all: set<FileKey>, failed: set<FileKey>)
    requires EntriesOk(before) && allBefore == EntryKeys(before) && failedBefore == FailedKeys(before)
    ensures ok <==> EntriesOk(before + Entries(suite, cases))
    ensures ok ==>
      all == EntryKeys(before + Entries(suite, cases)) &&
      failed == FailedKeys(before + Entries(suite, cases))
  {
    all, failed := allBefore, failedBefore;
    assert before + Entries(suite, cases[..0]) == before;
    hide EntriesOk, EntryKeys, FailedKeys;
    for k := 0 to |cases|
      invariant EntriesOk(before + Entries(suite, cases[..k]))
      invariant all == EntryKeys(before + Entries(suite, cases[..k]))
      invariant failed == FailedKeys(before + Entries(suite, cases[..k]))
    {
      var key, status := (suite, cases[k].caseId), cases[k].status;
      assert cases[..k + 1][..k] == cases[..k];
      ghost var read := before + Entries(suite, cases[..k]);
      assert before + Entries(suite, cases[..k + 1]) == read + [(key, status)];
      NextEntry(read, key, status);
      if key in all || (status != "failed" && status != "completed") {
        PrefixStuck(suite, cases, before, k + 1);
        return false, all, failed;
      }
      all := all + {key};
      if status == "failed" {
        failed := failed + {key};
      }
    }
    assert cases[..|cases|] == cases;
    ok := true;
  }

  lemma {:induction false} PrefixStuck(suite: string, cases: seq<Case>, before: seq<Entry>, k: nat)
    requires k <= |cases| && !EntriesOk(before + Entries(suite, cases[..k]))
    ensures !EntriesOk(before + Entries(suite, cases))
    decreases |cases| - k
  {
    hide EntriesOk;
    if k == |cases| {
      assert cases[..k] == cases;
    } else {
      assert cases[..k + 1][..k] == cases[..k];
      var read := before + Entries(suite, cases[..k]);
      var entry := ((suite, cases[k].caseId), cases[k].status);
      assert before + Entries(suite, cases[..k + 1]) == read + [entry];
      EntriesOfPrefix(read, [entry]);
      PrefixStuck(suite, cases, before, k + 1);
    }
  }

  /** Reads the baseline of all workers and suites. */
  method LoadBaseline(trees: Trees) returns (result: Result<(set<FileKey>, set<FileKey>), DetectionError>)
    ensures result.Ok? <==>
      && SummariesOk(trees) && EntriesOk(BaselineEntries(trees, SLOTS))
      && |EntryKeys(BaselineEntries(trees, SLOTS))| == CORPUS_SIZE
    ensures result.Ok? ==>
      result.value == (EntryKeys(BaselineEntries(trees, SLOTS)), FailedKeys(BaselineEntries(trees, SLOTS)))
  {
    if !SummariesOk(trees) {
      return Err(BadBaseline);
    }
    var all: set<FileKey>, failed: set<FileKey> := {}, {};
    NoEntries(trees);
    hide *;
    for s := 0 to |SLOTS|
      invariant EntriesOk(BaselineEntries(trees, SLOTS[..s]))
      invariant all == EntryKeys(BaselineEntries(trees, SLOTS[..s]))
      invariant failed == FailedKeys(BaselineEntries(trees, SLOTS[..s]))
    {
      var slot := SLOTS[s];
      NextSlot(trees, SLOTS, s);
      var ok;
      ok, all, failed := LoadSlot(trees, slot, BaselineEntries(trees, SLOTS[..s]), all, failed);
      if !ok {
        SlotsStuck(trees, SLOTS, s + 1);
        return Err(BadBaseline);
      }
    }
    assert SLOTS[..|SLOTS|] == SLOTS;
    if |all| != CORPUS_SIZE {
      return Err(WrongSize);
    }
    return Ok((all, failed));
  }

  method LoadSlot(trees: Trees, slot: Slot, ghost before: seq<Entry>, allBefore: set<FileKey>,
                  failedBefore: set<FileKey>)
    returns (ok: bool, all: set<FileKey>, failed: set<FileKey>)
    requires EntriesOk(before) && allBefore == EntryKeys(before) && failedBefore == FailedKeys(before)
    ensures ok <==> EntriesOk(before + SlotEntries(trees, slot))
    ensures ok ==>
      all == EntryKeys(before + SlotEntries(trees, slot)) &&
      failed == FailedKeys(before + SlotEntries(trees, slot))
  {
    hide EntriesOk, EntryKeys, FailedKeys, Entries;
    if HasCases(trees, slot.0, slot.1) {
      ok, all, failed := LoadCases(slot.1, CasesAt(trees, slot.0, slot.1), before, allBefore, failedBefore);
    } else {
      assert before + SlotEntries(trees, slot) == before;
      ok, all, failed := true, allBefore, failedBefore;
    }
  }

  lemma NextSlot(trees: Trees, slots: seq<Slot>, s: nat)
    requires s < |slots|
    ensures BaselineEntries(trees, slots[..s + 1]) == BaselineEntries(trees, slots[..s]) + SlotEntries(trees, slots[s])
  {
    hide SlotEntries;
    assert slots[..s + 1][..s] == slots[..s];
  }

  lemma NoEntries(trees: Trees)
    ensures BaselineEntries(trees, SLOTS[..0]) == []
    ensures EntriesOk([]) && EntryKeys([]) == {} && FailedKeys([]) == {}
  {
  }

  lemma {:induction false} SlotsStuck(trees: Trees, slots: seq<Slot>, s: nat)
    requires s <= |slots| && !EntriesOk(BaselineEntries(trees, slots[..s]))
    ensures !EntriesOk(BaselineEntries(trees, slots))
    decreases |slots| - s
  {
    hide *;
    if s == |slots| {
      assert slots[..s] == slots;
    } else {
      NextSlot(trees, slots, s);
      EntriesOfPrefix(BaselineEntries(trees, slots[..s]), SlotEntries(trees, slots[s]));
      SlotsStuck(trees, slots, s + 1);
    }
  }

  lemma {:induction false} EntryOfCase(suite: string, cases: seq<Case>, key: FileKey, status: string)
    ensures (key, status) in Entries(suite, cases) <==>
      key.0 == suite && exists k :: 0 <= k < |cases| && cases[k].caseId == key.1 && cases[k].status == status
  {
    if cases != [] {
      var n := |cases| - 1;
      EntryOfCase(suite, cases[..n], key, status);
      assert forall k :: 0 <= k < n ==> cases[..n][k] == cases[k];
      assert (key, status) in Entries(suite, cases) <==>
        (key, status) in Entries(suite, cases[..n]) || (key, status) == ((suite, cases[n].caseId), cases[n].status);
    }
  }

  /** The entries read are exactly the listed cases. */
  lemma {:induction false} EntriesAreListed(trees: Trees, slots: seq<Slot>, key: FileKey, status: string)
    ensures (key, status) in BaselineEntries(trees, slots) <==> Listed(trees, slots, key, status)
  {
    if slots != [] {
      hide Entries, Holds;
      EntriesAreListed(trees, slots[..|slots| - 1], key, status);
      SlotIsListed(trees, slots[|slots| - 1], key, status);
      ListedByLast(trees, slots, key, status);
    }
  }

  lemma SlotIsListed(trees: Trees, slot: Slot, key: FileKey, status: string)
    ensures Holds(trees, slot, key, status) <==>
      HasCases(trees, slot.0, slot.1) && (key, status) in Entries(slot.1, CasesAt(trees, slot.0, slot.1))
  {
    if HasCases(trees, slot.0, slot.1) {
      EntryOfCase(slot.1, CasesAt(trees, slot.0, slot.1), key, status);
    }
  }

  lemma ListedByLast(trees: Trees, slots: seq<Slot>, key: FileKey, status: string)
    requires slots != []
    ensures Listed(trees, slots, key, status) <==>
      Listed(trees, slots[..|slots| - 1], key, status) || Holds(trees, slots[|slots| - 1], key, status)
  {
    hide Holds;
    var n := |slots| - 1;
    assert forall i :: 0 <= i < n ==> slots[..n][i] == slots[i];
  }

  datatype Confusion = Confusion(tp: nat, fp: nat, fn: nat, tn: nat)

  function Confuse(all: set<FileKey>, failed: set<FileKey>, routed: set<FileKey>): Confusion {
    Confusion(|failed * routed|, |routed - failed|, |failed - routed|, |all - failed - routed|)
  }

  /** The four counts partition the corpus together with the routed cases. */
  lemma CountsPartition(all: set<FileKey>, failed: set<FileKey>, routed: set<FileKey>)
    requires failed <= all
    ensures var c := Confuse(all, failed, routed);
      && c.tp + c.fn == |failed| && c.tp + c.fp == |routed|
      && c.tp + c.fp + c.fn + c.tn == |all + routed|
  {
    assert failed == failed * routed + (failed - routed);
    assert routed == failed * routed + (routed - failed);
    assert all + routed == failed + (routed - failed) + (all - failed - routed);
  }

  /** A plan that the retry stage carried out holds no false positive on the same baseline. */
  lemma CarriedOutPlanIsPrecise(primaries: Trees, retries: Trees, plan: Plan, all: set<FileKey>, failed: set<FileKey>)
    requires RunOk(primaries, retries, plan.failures) && primaries.Keys == {0, 1, 2, 3}
    requires failed == FailedKeys(BaselineEntries(primaries, SLOTS))
    ensures Routed(plan) <= failed && Confuse(all, failed, Routed(plan)).fp == 0
  {
    hide Listed, BaselineEntries, SlotList, RunOk;
    forall key | key in Routed(plan) ensures key in failed {
      var i :| 0 <= i < |plan.failures| && Key(plan.failures[i]) == key;
      PlannedIsListed(primaries, retries, plan.failures, i);
      EntriesAreListed(primaries, SLOTS, key, "failed");
      assert (key, "failed") in BaselineEntries(primaries, SLOTS);
    }
    assert Routed(plan) - failed == {};
  }

  lemma PlannedIsListed(primaries: Trees, retries: Trees, failures: seq<Failure>, i: nat)
    requires RunOk(primaries, retries, failures) && primaries.Keys == {0, 1, 2, 3} && i < |failures|
    ensures Listed(primaries, SLOTS, Key(failures[i]), "failed")
  {
    hide *;
    var failure := failures[i];
    PlannedSlot(primaries, retries, failures, i);
    PlannedCase(primaries, retries, failures, i);
    FailedIsHeld(primaries, failure);
    SlotMeaning(failure.primary, failure.suite);
    SlotIsAmong(primaries, (failure.primary, failure.suite), Key(failure), "failed");
  }

  lemma FailedIsHeld(trees: Trees, failure: Failure)
    requires TargetFailed(trees, failure)
    ensures Holds(trees, (failure.primary, failure.suite), Key(failure), "failed")
  {
  }

  lemma SlotIsAmong(trees: Trees, slot: Slot, key: FileKey, status: string)
    requires IsSlot(slot.0, slot.1) && Holds(trees, slot, key, status)
    ensures Listed(trees, SLOTS, key, status)
  {
    hide Holds, SlotList;
    var s :| 0 <= s < |SLOTS| && SLOTS[s] == slot;
  }
}
