/**
 * Selecting candidates by official failure records: a candidate replaces the
 * baseline of a case only when it strictly improves it.
 */
module QualitySelection {
  import opened Sequences
  import opened Sorting

  type Key = (string, string)

  datatype Route = Route(key: Key, requestRecovery: bool, failureCodes: set<string>, escalate: bool)

  /** Official results of one evaluation: routed cases, and one key per failure record. */
  datatype Evaluation = Evaluation(routes: seq<Route>, records: seq<Key>) {
    function Count(key: Key): nat {
      multiset(records)[key]
    }

    ghost predicate RoutesOnce() {
      forall i, j :: 0 <= i < j < |routes| ==> routes[i].key != routes[j].key
    }

    function RouteFor(key: Key): (route: Option<Route>)
      ensures route.Some? <==> exists i :: 0 <= i < |routes| && routes[i].key == key
      ensures route.Some? ==> route.value in routes && route.value.key == key
    {
      Lookup(routes, key)
    }
  }

  function Lookup(routes: seq<Route>, key: Key): (route: Option<Route>)
    ensures route.Some? <==> exists i :: 0 <= i < |routes| && routes[i].key == key
    ensures route.Some? ==> route.value in routes && route.value.key == key
  {
    if routes == [] then None
    else
      var n := |routes| - 1;
      if routes[n].key == key then Some(routes[n])
      else
        var earlier := Lookup(routes[..n], key);
        assert earlier.Some? ==> exists i :: 0 <= i < n && routes[..n][i].key == key && routes[i].key == key;
        assert forall i :: 0 <= i < n ==> routes[..n][i] == routes[i];
        earlier
  }

  // One case.

  datatype Decision = Decision(
    key: Key,
    baselineCount: nat,
    candidateCount: nat,
    baselineCodes: set<string>,
    candidateCodes: set<string>,
    newCodes: set<string>,
    candidateEscalates: bool,
    strictlyImproved: bool)

  function Compare(baseline: Evaluation, candidate: Evaluation, route: Route): Decision {
    var other := candidate.RouteFor(route.key);
    var codes := if other.Some? then other.value.failureCodes else {};
    var escalates := other.Some? && other.value.escalate;
    var before, after := baseline.Count(route.key), candidate.Count(route.key);
    Decision(route.key, before, after, route.failureCodes, codes, codes - route.failureCodes, escalates,
             after < before && codes - route.failureCodes == {} && !escalates)
  }

  /** The policy check that both the comparison and the later stage apply to an accepted decision. */
  predicate Validates(decision: Decision) {
    && decision.baselineCount >= 1
    && decision.candidateCount < decision.baselineCount
    && decision.strictlyImproved
    && !decision.candidateEscalates
    && decision.newCodes == {}
    && decision.candidateCodes <= decision.baselineCodes
  }

  /** The comparison accepts exactly the decisions that pass the policy check. */
  lemma AcceptedIffValid(baseline: Evaluation, candidate: Evaluation, route: Route)
    ensures var decision := Compare(baseline, candidate, route);
      decision.strictlyImproved <==> Validates(decision)
  {
    var decision := Compare(baseline, candidate, route);
    EmptyDifference(decision.candidateCodes, decision.baselineCodes);
  }

  // The comparison.

  datatype Origin = FromBaseline | FromCandidate

  datatype Persistent = Persistent(route: Route, selectedSource: Origin)

  datatype Payload = Payload(
    accepted: seq<Decision>,
    persistent: seq<Persistent>,
    regressions: seq<Decision>,
    comparisons: seq<Decision>)

  predicate RouteLe(a: Route, b: Route) {
    PairLe(a.key, b.key)
  }

  predicate Regresses(decision: Decision) {
    decision.candidateCount > decision.baselineCount || decision.newCodes != {} || decision.candidateEscalates
  }

  function PersistentFor(baseline: Evaluation, candidate: Evaluation, route: Route): seq<Persistent> {
    var decision, other := Compare(baseline, candidate, route), candidate.RouteFor(route.key);
    if !decision.strictlyImproved then [Persistent(route, FromBaseline)]
    else if decision.candidateCount > 0 && other.Some? then [Persistent(other.value, FromCandidate)]
    else []
  }

  /** One more baseline route. */
  function Extend(baseline: Evaluation, candidate: Evaluation, payload: Payload, route: Route): Payload {
    if !route.requestRecovery then payload
    else
      var decision := Compare(baseline, candidate, route);
      Payload(payload.accepted + (if decision.strictlyImproved then [decision] else []),
              payload.persistent + PersistentFor(baseline, candidate, route),
              payload.regressions + (if !decision.strictlyImproved && Regresses(decision) then [decision] else []),
              payload.comparisons + [decision])
  }

  function Selection(baseline: Evaluation, candidate: Evaluation, routes: seq<Route>): Payload {
    if routes == [] then Payload([], [], [], [])
    else Extend(baseline, candidate, Selection(baseline, candidate, routes[..|routes| - 1]), routes[|routes| - 1])
  }

  method CompareFailureRecords(baseline: Evaluation, candidate: Evaluation, outputExists: bool)
      returns (payload: Option<Payload>)
    ensures payload.Some? <==> !outputExists && baseline.RoutesOnce() && candidate.RoutesOnce()
    ensures payload.Some? ==> payload.value == Selection(baseline, candidate, Sort(RouteLe, baseline.routes))
  {
    if outputExists {
      return None;
    }
    var baselineOnce := RoutesAreUnique(baseline);
    var candidateOnce := RoutesAreUnique(candidate);
    if !baselineOnce || !candidateOnce {
      return None;
    }
    hide Compare, Validates;
    var routes := Sort(RouteLe, baseline.routes);
    var accepted: seq<Decision>, persistent: seq<Persistent> := [], [];
    var regressions: seq<Decision>, comparisons: seq<Decision> := [], [];
    for k := 0 to |routes|
      invariant Payload(accepted, persistent, regressions, comparisons) == Selection(baseline, candidate, routes[..k])
    {
      var route := routes[k];
      assert routes[..k + 1][..k] == routes[..k];
      if route.requestRecovery {
        var decision, other := Compare(baseline, candidate, route), candidate.RouteFor(route.key);
        comparisons := comparisons + [decision];
        AcceptedIffValid(baseline, candidate, route);
        if decision.strictlyImproved {
          assert Validates(decision);
          accepted := accepted + [decision];
          if decision.candidateCount > 0 && other.Some? {
            persistent := persistent + [Persistent(other.value, FromCandidate)];
          }
        } else {
          persistent := persistent + [Persistent(route, FromBaseline)];
          if Regresses(decision) {
            regressions := regressions + [decision];
          }
        }
      }
    }
    assert routes[..|routes|] == routes;
    return Some(Payload(accepted, persistent, regressions, comparisons));
  }

  method RoutesAreUnique(evaluation: Evaluation) returns (once: bool)
    ensures once <==> evaluation.RoutesOnce()
  {
    var seen: set<Key> := {};
    for k := 0 to |evaluation.routes|
      invariant seen == set i | 0 <= i < k :: evaluation.routes[i].key
      invariant forall i, j :: 0 <= i < j < k ==> evaluation.routes[i].key != evaluation.routes[j].key
    {
      if evaluation.routes[k].key in seen {
        return false;
      }
      seen := seen + {evaluation.routes[k].key};
    }
    return true;
  }

  // What the selection means.

  /** The routes a comparison acts on. */
  ghost predicate Accepts(baseline: Evaluation, candidate: Evaluation, key: Key) {
    exists route :: route in baseline.routes && route.key == key && route.requestRecovery
      && Compare(baseline, candidate, route).strictlyImproved
  }

  ghost function DecisionKeys(decisions: seq<Decision>): set<Key> {
    set decision | decision in decisions :: decision.key
  }

  ghost function RouteKeys(routes: seq<Route>): set<Key> {
    set route | route in routes :: route.key
  }

  ghost function PersistentKeys(payload: Payload): set<Key> {
    set p | p in payload.persistent :: p.route.key
  }

  ghost predicate KeysOnce(routes: seq<Route>) {
    forall i, j :: 0 <= i < j < |routes| ==> routes[i].key != routes[j].key
  }

  /** The decisions kept by a selection over distinct keys. */
  lemma {:induction false} AcceptedMembers(baseline: Evaluation, candidate: Evaluation, routes: seq<Route>,
                                           decision: Decision)
    ensures decision in Selection(baseline, candidate, routes).accepted <==>
      exists i :: 0 <= i < |routes| && routes[i].requestRecovery && decision == Compare(baseline, candidate, routes[i])
        && decision.strictlyImproved
  {
    if routes != [] {
      hide Compare;
      var n := |routes| - 1;
      AcceptedMembers(baseline, candidate, routes[..n], decision);
      assert forall i :: 0 <= i < n ==> routes[..n][i] == routes[i];
    }
  }

  lemma {:induction false} AcceptedOnce(baseline: Evaluation, candidate: Evaluation, routes: seq<Route>)
    requires KeysOnce(routes)
    ensures |DecisionKeys(Selection(baseline, candidate, routes).accepted)| ==
      |Selection(baseline, candidate, routes).accepted|
    ensures DecisionKeys(Selection(baseline, candidate, routes).accepted) <= RouteKeys(routes)
  {
    var accepted := Selection(baseline, candidate, routes).accepted;
    if routes == [] {
      assert DecisionKeys(accepted) == {};
    } else {
      var done, last := routes[..|routes| - 1], routes[|routes| - 1];
      assert routes == done + [last];
      var before := Selection(baseline, candidate, done).accepted;
      var decision := Compare(baseline, candidate, last);
      LastAccepted(baseline, candidate, routes);
      LastKeyIsNew(routes);
      hide *;
      AcceptedOnce(baseline, candidate, done);
      DecisionAdded(before, decision);
      RouteAdded(done, last);
    }
  }

  lemma LastAccepted(baseline: Evaluation, candidate: Evaluation, routes: seq<Route>)
    requires routes != []
    ensures var before, last := Selection(baseline, candidate, routes[..|routes| - 1]).accepted, routes[|routes| - 1];
      var now := Selection(baseline, candidate, routes).accepted;
      now == before || now == before + [Compare(baseline, candidate, last)]
    ensures Compare(baseline, candidate, routes[|routes| - 1]).key == routes[|routes| - 1].key
  {
  }

  lemma LastKeyIsNew(routes: seq<Route>)
    requires KeysOnce(routes) && routes != []
    ensures routes[|routes| - 1].key !in RouteKeys(routes[..|routes| - 1])
    ensures KeysOnce(routes[..|routes| - 1])
  {
  }

  lemma DecisionAdded(decisions: seq<Decision>, decision: Decision)
    ensures DecisionKeys(decisions + [decision]) == DecisionKeys(decisions) + {decision.key}
  {
    forall d ensures d in decisions + [decision] <==> d in decisions || d == decision {
    }
  }

  lemma RouteAdded(routes: seq<Route>, route: Route)
    ensures RouteKeys(routes + [route]) == RouteKeys(routes) + {route.key}
  {
    forall r ensures r in routes + [route] <==> r in routes || r == route {
    }
  }

  // The failure total of what is selected.

  /** The failures of a case in the artifact that the selection keeps. */
  ghost function SelectedCount(baseline: Evaluation, candidate: Evaluation, chosen: set<Key>, key: Key): nat {
    if key in chosen then candidate.Count(key) else baseline.Count(key)
  }

  ghost function SelectedCounts(baseline: Evaluation, candidate: Evaluation, chosen: set<Key>): Key -> int {
    key => SelectedCount(baseline, candidate, chosen, key)
  }

  ghost function Counts(evaluation: Evaluation): Key -> int {
    key => evaluation.Count(key)
  }

  /** The cases whose candidate the comparison accepts. */
  ghost function Chosen(baseline: Evaluation, candidate: Evaluation): set<Key> {
    DecisionKeys(Selection(baseline, candidate, Sort(RouteLe, baseline.routes)).accepted)
  }

  lemma ChosenMeaning(baseline: Evaluation, candidate: Evaluation, key: Key)
    ensures key in Chosen(baseline, candidate) <==> Accepts(baseline, candidate, key)
  {
    var routes := Sort(RouteLe, baseline.routes);
    SortPermutes(RouteLe, baseline.routes);
    hide Compare, Selection, Sort;
    if key in Chosen(baseline, candidate) {
      var decision :| decision in Selection(baseline, candidate, routes).accepted && decision.key == key;
      AcceptedMembers(baseline, candidate, routes, decision);
      var i :| 0 <= i < |routes| && routes[i].requestRecovery && decision == Compare(baseline, candidate, routes[i])
        && decision.strictlyImproved;
      CompareKeepsKey(baseline, candidate, routes[i]);
      assert routes[i] in baseline.routes;
    }
    if Accepts(baseline, candidate, key) {
      var route :| route in baseline.routes && route.key == key && route.requestRecovery
        && Compare(baseline, candidate, route).strictlyImproved;
      assert route in routes;
      var i :| 0 <= i < |routes| && routes[i] == route;
      CompareKeepsKey(baseline, candidate, route);
      AcceptedMembers(baseline, candidate, routes, Compare(baseline, candidate, route));
    }
  }

  lemma CompareKeepsKey(baseline: Evaluation, candidate: Evaluation, route: Route)
    ensures Compare(baseline, candidate, route).key == route.key
    ensures Compare(baseline, candidate, route).strictlyImproved ==>
      candidate.Count(route.key) < baseline.Count(route.key)
  {
  }

  /** A chosen case strictly improves; every other case keeps its baseline count. */
  lemma SelectedNeverWorse(baseline: Evaluation, candidate: Evaluation, key: Key)
    ensures SelectedCount(baseline, candidate, Chosen(baseline, candidate), key)
         <= baseline.Count(key) - if key in Chosen(baseline, candidate) then 1 else 0
  {
    hide Compare, Chosen;
    ChosenMeaning(baseline, candidate, key);
    if key in Chosen(baseline, candidate) {
      var route :| route in baseline.routes && route.key == key && route.requestRecovery
        && Compare(baseline, candidate, route).strictlyImproved;
      CompareKeepsKey(baseline, candidate, route);
    }
  }

  ghost function Indicator(chosen: set<Key>): Key -> int {
    key => if key in chosen then 1 else 0
  }

  lemma {:induction false} IndicatorSum(chosen: set<Key>, universe: seq<Key>)
    requires Distinct(universe)
    ensures Sum(Indicator(chosen), universe) == |chosen * Elements(universe)|
  {
    if universe == [] {
      assert chosen * Elements(universe) == {};
    } else {
      var n := |universe| - 1;
      IndicatorSum(chosen, universe[..n]);
      assert universe == universe[..n] + [universe[n]];
      assert Elements(universe) == Elements(universe[..n]) + {universe[n]};
      OneMore(chosen, Elements(universe[..n]), universe[n]);
    }
  }

  lemma OneMore(chosen: set<Key>, s: set<Key>, key: Key)
    requires key !in s
    ensures |chosen * (s + {key})| == |chosen * s| + if key in chosen then 1 else 0
  {
    if key in chosen {
      assert chosen * (s + {key}) == chosen * s + {key};
    } else {
      assert chosen * (s + {key}) == chosen * s;
    }
  }

  lemma {:induction false} SumDrop(f: Key -> int, g: Key -> int, h: Key -> int, universe: seq<Key>)
    requires forall key :: f(key) + h(key) <= g(key)
    ensures Sum(f, universe) + Sum(h, universe) <= Sum(g, universe)
  {
    if universe != [] {
      SumDrop(f, g, h, universe[..|universe| - 1]);
    }
  }

  /** The selected failure total is below the baseline's by at least the number of accepted cases. */
  lemma SelectedTotalDrops(baseline: Evaluation, candidate: Evaluation, universe: seq<Key>)
    requires Distinct(universe) && Chosen(baseline, candidate) <= Elements(universe)
    ensures Sum(SelectedCounts(baseline, candidate, Chosen(baseline, candidate)), universe) +
      |Chosen(baseline, candidate)|
         <= Sum(Counts(baseline), universe)
  {
    var chosen := Chosen(baseline, candidate);
    hide Chosen, Sum;
    forall key ensures SelectedCounts(baseline, candidate, chosen)(key) +
      Indicator(chosen)(key) <= Counts(baseline)(key) {
      SelectedNeverWorse(baseline, candidate, key);
    }
    SumDrop(SelectedCounts(baseline, candidate, chosen), Counts(baseline), Indicator(chosen), universe);
    IndicatorSum(chosen, universe);
    assert chosen * Elements(universe) == chosen;
  }

  /** The number of chosen cases is the number of accepted decisions. */
  lemma ChosenSize(baseline: Evaluation, candidate: Evaluation)
    requires baseline.RoutesOnce()
    ensures |Chosen(baseline, candidate)|
         == |Selection(baseline, candidate, Sort(RouteLe, baseline.routes)).accepted|
  {
    var routes := Sort(RouteLe, baseline.routes);
    SortPermutes(RouteLe, baseline.routes);
    hide Sort, Selection;
    KeysStayUnique(baseline.routes, routes);
    AcceptedOnce(baseline, candidate, routes);
  }

  lemma KeysStayUnique(routes: seq<Route>, sorted: seq<Route>)
    requires KeysOnce(routes) && multiset(routes) == multiset(sorted)
    ensures KeysOnce(sorted)
  {
    DistinctFromMultiset(routes, sorted);
    forall i, j | 0 <= i < j < |sorted| ensures sorted[i].key != sorted[j].key {
      assert sorted[i] in multiset(routes) && sorted[j] in multiset(routes);
      var k :| 0 <= k < |routes| && routes[k] == sorted[i];
      var l :| 0 <= l < |routes| && routes[l] == sorted[j];
      assert k != l;
    }
  }

  // The routes handed to the next stage.

  ghost predicate Recoverable(baseline: Evaluation, key: Key) {
    exists route :: route in baseline.routes && route.key == key && route.requestRecovery
  }

  /** Recoverable cases that still fail in the artifact the selection keeps. */
  ghost predicate StillFailing(baseline: Evaluation, candidate: Evaluation, key: Key) {
    Recoverable(baseline, key) && SelectedCount(baseline, candidate, Chosen(baseline, candidate), key) > 0
  }

  ghost predicate Persists(baseline: Evaluation, candidate: Evaluation, key: Key) {
    key in PersistentKeys(Selection(baseline, candidate, Sort(RouteLe, baseline.routes)))
  }

  /** The case has failure records, and a candidate with fewer but some records has a route for it. */
  ghost predicate RoutesMatchRecords(baseline: Evaluation, candidate: Evaluation, key: Key) {
    && baseline.Count(key) > 0
    && (0 < candidate.Count(key) < baseline.Count(key) ==> candidate.RouteFor(key).Some?)
  }

  lemma {:induction false} PersistentMembers(baseline: Evaluation, candidate: Evaluation, routes: seq<Route>, key: Key)
    ensures key in PersistentKeys(Selection(baseline, candidate, routes)) <==>
      exists i :: 0 <= i < |routes| && routes[i].requestRecovery && routes[i].key == key
        && PersistentFor(baseline, candidate, routes[i]) != []
  {
    if routes != [] {
      var n := |routes| - 1;
      PersistentMembers(baseline, candidate, routes[..n], key);
      var before := Selection(baseline, candidate, routes[..n]).persistent;
      PersistentKey(baseline, candidate, routes[n]);
      var added := if routes[n].requestRecovery then PersistentFor(baseline, candidate, routes[n]) else [];
      assert Selection(baseline, candidate, routes).persistent == before + added;
      hide PersistentFor, Selection, Compare;
      assert forall i :: 0 <= i < n ==> routes[..n][i] == routes[i];
      PersistentAdded(before, added, key);
      assert added != [] ==> added[0] in added;
    }
  }

  lemma PersistentAdded(before: seq<Persistent>, added: seq<Persistent>, key: Key)
    ensures key in (set p | p in before + added :: p.route.key) <==>
      key in (set p | p in before :: p.route.key) || exists p :: p in added && p.route.key == key
  {
    forall p ensures p in before + added <==> p in before || p in added {
    }
  }

  lemma PersistentKey(baseline: Evaluation, candidate: Evaluation, route: Route)
    ensures forall p :: p in PersistentFor(baseline, candidate, route) ==> p.route.key == route.key
  {
  }

  /** A recoverable route persists exactly when its kept artifact still fails, as long as routes match records. */
  lemma PersistsOne(baseline: Evaluation, candidate: Evaluation, route: Route)
    requires baseline.RoutesOnce() && route in baseline.routes && route.requestRecovery
    ensures Persists(baseline, candidate, route.key) <==> PersistentFor(baseline, candidate, route) != []
    ensures (PersistentFor(baseline, candidate, route) != [] <==> StillFailing(baseline, candidate, route.key))
        <==> RoutesMatchRecords(baseline, candidate, route.key)
  {
    PersistsByRoute(baseline, candidate, route);
    ChosenMeaning(baseline, candidate, route.key);
    UnroutedImproves(baseline, candidate, route);
    hide Sort, Selection, Compare, Chosen, Persists;
    AcceptsOne(baseline, candidate, route);
    CompareKeepsKey(baseline, candidate, route);
    CompareCounts(baseline, candidate, route);
  }

  /** Without a route of its own a candidate improves a case exactly by having fewer records. */
  lemma UnroutedImproves(baseline: Evaluation, candidate: Evaluation, route: Route)
    ensures var improved := Compare(baseline, candidate, route).strictlyImproved;
      && (improved ==> candidate.Count(route.key) < baseline.Count(route.key))
      && (candidate.RouteFor(route.key).None? ==>
            (improved <==> candidate.Count(route.key) < baseline.Count(route.key)))
  {
  }

  lemma PersistsByRoute(baseline: Evaluation, candidate: Evaluation, route: Route)
    requires baseline.RoutesOnce() && route in baseline.routes && route.requestRecovery
    ensures Persists(baseline, candidate, route.key) <==> PersistentFor(baseline, candidate, route) != []
  {
    var routes := Sort(RouteLe, baseline.routes);
    SortPermutes(RouteLe, baseline.routes);
    PersistentMembers(baseline, candidate, routes, route.key);
    KeysStayUnique(baseline.routes, routes);
    hide Sort, Selection, PersistentFor;
    assert route in routes;
    var k :| 0 <= k < |routes| && routes[k] == route;
  }

  lemma CompareCounts(baseline: Evaluation, candidate: Evaluation, route: Route)
    ensures Compare(baseline, candidate, route).candidateCount == candidate.Count(route.key)
  {
  }

  lemma AcceptsOne(baseline: Evaluation, candidate: Evaluation, route: Route)
    requires baseline.RoutesOnce() && route in baseline.routes && route.requestRecovery
    ensures Accepts(baseline, candidate, route.key) <==> Compare(baseline, candidate, route).strictlyImproved
  {
    hide Compare;
    var k :| 0 <= k < |baseline.routes| && baseline.routes[k] == route;
    if Accepts(baseline, candidate, route.key) {
      var other :| other in baseline.routes && other.key == route.key && other.requestRecovery
        && Compare(baseline, candidate, other).strictlyImproved;
      var l :| 0 <= l < |baseline.routes| && baseline.routes[l] == other;
      assert k == l;
    }
  }

  /** The persistent routes are exactly the recoverable cases still failing if and only if routes and records agree. */
  lemma PersistentAreStillFailing(baseline: Evaluation, candidate: Evaluation)
    requires baseline.RoutesOnce()
    ensures (forall key :: Persists(baseline, candidate, key) <==> StillFailing(baseline, candidate, key))
        <==> (forall route :: route in baseline.routes && route.requestRecovery ==>
              RoutesMatchRecords(baseline, candidate, route.key))
  {
    forall route | route in baseline.routes && route.requestRecovery
      ensures (Persists(baseline, candidate, route.key) <==> StillFailing(baseline, candidate, route.key))
          <==> RoutesMatchRecords(baseline, candidate, route.key)
    {
      PersistsOne(baseline, candidate, route);
    }
    forall key | !Recoverable(baseline, key)
      ensures !Persists(baseline, candidate, key) && !StillFailing(baseline, candidate, key)
    {
      NeverPersists(baseline, candidate, key);
    }
    hide Persists, RoutesMatchRecords, StillFailing;
    if forall route :: route in baseline.routes && route.requestRecovery ==>
      RoutesMatchRecords(baseline, candidate, route.key) {
      forall key ensures Persists(baseline, candidate, key) <==> StillFailing(baseline, candidate, key) {
        if Recoverable(baseline, key) {
          var route :| route in baseline.routes && route.key == key && route.requestRecovery;
        }
      }
    }
  }

  /** A recoverable route without a failure record persists without failing. */
  lemma PersistsWithoutFailing(key: Key)
    ensures var baseline, candidate := Evaluation([Route(key, true, {}, false)], []), Evaluation([], []);
      && baseline.RoutesOnce() && candidate.RoutesOnce()
      && Persists(baseline, candidate, key) && !StillFailing(baseline, candidate, key)
  {
    var route := Route(key, true, {}, false);
    var baseline, candidate := Evaluation([route], []), Evaluation([], []);
    assert baseline.Count(key) == 0 && candidate.Count(key) == 0;
    PersistsByRoute(baseline, candidate, route);
    hide Persists, Sort, Selection, Chosen;
  }

  /** An accepted candidate that still fails and has no route of its own is lost to every later stage. */
  lemma FailingWithoutPersisting(key: Key)
    ensures var baseline, candidate := Evaluation([Route(key, true, {}, false)], [key, key]), Evaluation([], [key]);
      && baseline.RoutesOnce() && candidate.RoutesOnce()
      && key in Chosen(baseline, candidate)
      && StillFailing(baseline, candidate, key) && !Persists(baseline, candidate, key)
  {
    var route := Route(key, true, {}, false);
    var baseline, candidate := Evaluation([route], [key, key]), Evaluation([], [key]);
    assert baseline.Count(key) == 2 && candidate.Count(key) == 1 && candidate.RouteFor(key).None?;
    assert Compare(baseline, candidate, route).strictlyImproved;
    PersistsByRoute(baseline, candidate, route);
    ChosenMeaning(baseline, candidate, key);
    hide Persists, Sort, Selection, Chosen;
    assert route in baseline.routes;
  }

  lemma NeverPersists(baseline: Evaluation, candidate: Evaluation, key: Key)
    requires !Recoverable(baseline, key)
    ensures !Persists(baseline, candidate, key)
  {
    var routes := Sort(RouteLe, baseline.routes);
    SortPermutes(RouteLe, baseline.routes);
    PersistentMembers(baseline, candidate, routes, key);
    hide Sort, Selection, PersistentFor;
    forall i | 0 <= i < |routes| && routes[i].requestRecovery ensures routes[i].key != key {
      assert routes[i] in baseline.routes;
    }
  }
}
