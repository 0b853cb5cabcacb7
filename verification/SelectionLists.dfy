/**
 * What the lists of a failure-record comparison hold, in terms of the routes
 * and records of the two evaluations alone.
 */
module SelectionLists {
  import opened Sequences
  import opened Sorting
  import opened QualitySelection

  /** The candidate has fewer records for the case, no failure code the baseline's route lacks, and no escalation. */
  ghost predicate Improves(baseline: Evaluation, candidate: Evaluation, route: Route) {
    && candidate.Count(route.key) < baseline.Count(route.key)
    && forall other :: other in candidate.routes && other.key == route.key ==>
         !other.escalate && forall code :: code in other.failureCodes ==> code in route.failureCodes
  }

  /** The candidate has more records, a failure code the baseline's route lacks, or an escalation. */
  ghost predicate Worsens(baseline: Evaluation, candidate: Evaluation, route: Route) {
    || candidate.Count(route.key) > baseline.Count(route.key)
    || exists other :: other in candidate.routes && other.key == route.key
         && (other.escalate || exists code :: code in other.failureCodes && code !in route.failureCodes)
  }

  lemma OnlyRoute(candidate: Evaluation, key: Key)
    requires candidate.RoutesOnce()
    ensures forall other :: other in candidate.routes && other.key == key <==> candidate.RouteFor(key) == Some(other)
  {
    forall other | other in candidate.routes && other.key == key ensures candidate.RouteFor(key) == Some(other) {
      var i :| 0 <= i < |candidate.routes| && candidate.routes[i] == other;
      var found := candidate.RouteFor(key).value;
      var j :| 0 <= j < |candidate.routes| && candidate.routes[j] == found;
      assert i == j;
    }
  }

  lemma DecisionMeaning(baseline: Evaluation, candidate: Evaluation, route: Route)
    requires candidate.RoutesOnce()
    ensures var decision := Compare(baseline, candidate, route);
      && decision.key == route.key
      && decision.baselineCount == baseline.Count(route.key) && decision.candidateCount == candidate.Count(route.key)
      && (decision.strictlyImproved <==> Improves(baseline, candidate, route))
      && (Regresses(decision) <==> Worsens(baseline, candidate, route))
  {
    OnlyRoute(candidate, route.key);
    var decision, other := Compare(baseline, candidate, route), candidate.RouteFor(route.key);
    if other.Some? {
      CodesNew(other.value.failureCodes, route.failureCodes);
    }
    hide Evaluation.RoutesOnce, Evaluation.RouteFor, Evaluation.Count;
  }

  lemma CodesNew(codes: set<string>, known: set<string>)
    ensures codes - known == {} <==> forall code :: code in codes ==> code in known
  {
    if forall code :: code in codes ==> code in known {
      assert codes - known == {};
    } else {
      var code :| code in codes && code !in known;
      assert code in codes - known;
    }
  }

  ghost predicate Compared(baseline: Evaluation, candidate: Evaluation, routes: seq<Route>, decision: Decision) {
    exists route :: route in routes && route.requestRecovery && decision == Compare(baseline, candidate, route)
  }

  ghost predicate Regressed(baseline: Evaluation, candidate: Evaluation, routes: seq<Route>, decision: Decision) {
    Compared(baseline, candidate, routes, decision) && !decision.strictlyImproved && Regresses(decision)
  }

  ghost predicate Persisting(baseline: Evaluation, candidate: Evaluation, routes: seq<Route>, entry: Persistent) {
    exists route :: route in routes && route.requestRecovery && entry in PersistentFor(baseline, candidate, route)
  }

  /** What the lists hold is what the recoverable routes add to them. */
  lemma {:induction false} ListMembers(baseline: Evaluation, candidate: Evaluation, routes: seq<Route>)
    ensures var payload := Selection(baseline, candidate, routes);
      && (forall decision :: decision in payload.comparisons <==> Compared(baseline, candidate, routes, decision))
      && (forall decision :: decision in payload.regressions <==> Regressed(baseline, candidate, routes, decision))
      && (forall entry :: entry in payload.persistent <==> Persisting(baseline, candidate, routes, entry))
  {
    hide Compare, PersistentFor, Regresses;
    if routes != [] {
      var n := |routes| - 1;
      ListMembers(baseline, candidate, routes[..n]);
      forall decision
        ensures Compared(baseline, candidate, routes, decision) <==>
          || Compared(baseline, candidate, routes[..n], decision)
          || (routes[n].requestRecovery && decision == Compare(baseline, candidate, routes[n]))
      {
        LastCompared(baseline, candidate, routes, decision);
      }
      forall entry
        ensures Persisting(baseline, candidate, routes, entry) <==>
          || Persisting(baseline, candidate, routes[..n], entry)
          || (routes[n].requestRecovery && entry in PersistentFor(baseline, candidate, routes[n]))
      {
        LastPersisting(baseline, candidate, routes, entry);
      }
      hide Compared, Persisting;
    }
  }

  lemma LastCompared(baseline: Evaluation, candidate: Evaluation, routes: seq<Route>, decision: Decision)
    requires routes != []
    ensures var n := |routes| - 1;
      Compared(baseline, candidate, routes, decision) <==>
        || Compared(baseline, candidate, routes[..n], decision)
        || (routes[n].requestRecovery && decision == Compare(baseline, candidate, routes[n]))
  {
    hide Compare;
    assert routes == routes[..|routes| - 1] + [routes[|routes| - 1]];
  }

  lemma LastPersisting(baseline: Evaluation, candidate: Evaluation, routes: seq<Route>, entry: Persistent)
    requires routes != []
    ensures var n := |routes| - 1;
      Persisting(baseline, candidate, routes, entry) <==>
        || Persisting(baseline, candidate, routes[..n], entry)
        || (routes[n].requestRecovery && entry in PersistentFor(baseline, candidate, routes[n]))
  {
    hide PersistentFor;
    assert routes == routes[..|routes| - 1] + [routes[|routes| - 1]];
  }

  /** A case is accepted exactly when some recoverable route of it improves. */
  lemma AcceptedIff(baseline: Evaluation, candidate: Evaluation, key: Key)
    requires candidate.RoutesOnce()
    ensures key in Chosen(baseline, candidate) <==>
      exists route :: route in baseline.routes && route.requestRecovery && route.key == key
                      && Improves(baseline, candidate, route)
  {
    ChosenMeaning(baseline, candidate, key);
    forall route ensures Compare(baseline, candidate, route).strictlyImproved <==>
      Improves(baseline, candidate, route) {
      DecisionMeaning(baseline, candidate, route);
    }
    hide Compare, Chosen, Improves;
  }

  /** A case is among the regressions exactly when some recoverable route of it worsens. */
  lemma RegressionIff(baseline: Evaluation, candidate: Evaluation, key: Key)
    requires candidate.RoutesOnce()
    ensures key in DecisionKeys(Selection(baseline, candidate, Sort(RouteLe, baseline.routes)).regressions) <==>
      exists route :: route in baseline.routes && route.requestRecovery && route.key == key
                      && Worsens(baseline, candidate, route)
  {
    var routes := Sort(RouteLe, baseline.routes);
    SortPermutes(RouteLe, baseline.routes);
    ListMembers(baseline, candidate, routes);
    forall route
      ensures var decision := Compare(baseline, candidate, route);
        && decision.key == route.key
        && (!decision.strictlyImproved && Regresses(decision) <==> Worsens(baseline, candidate, route))
    {
      DecisionMeaning(baseline, candidate, route);
      NotBoth(baseline, candidate, route);
    }
    hide Sort, Compare, Selection, Regresses, Worsens;
    forall route | route in baseline.routes && route.requestRecovery && Worsens(baseline, candidate, route)
      ensures Compare(baseline, candidate, route) in Selection(baseline, candidate, routes).regressions
    {
      assert Compared(baseline, candidate, routes, Compare(baseline, candidate, route));
    }
  }

  lemma NotBoth(baseline: Evaluation, candidate: Evaluation, route: Route)
    ensures !(Improves(baseline, candidate, route) && Worsens(baseline, candidate, route))
  {
  }

  /** What persists: the baseline's route where nothing improved, else the candidate's own if it still fails. */
  lemma PersistentIff(baseline: Evaluation, candidate: Evaluation, entry: Persistent)
    requires candidate.RoutesOnce()
    ensures entry in Selection(baseline, candidate, Sort(RouteLe, baseline.routes)).persistent <==>
      exists route :: route in baseline.routes && route.requestRecovery
        && if Improves(baseline, candidate, route)
           then candidate.Count(route.key) > 0 && entry.selectedSource == FromCandidate
                && entry.route in candidate.routes && entry.route.key == route.key
           else entry == Persistent(route, FromBaseline)
  {
    var routes := Sort(RouteLe, baseline.routes);
    SortPermutes(RouteLe, baseline.routes);
    ListMembers(baseline, candidate, routes);
    forall route
      ensures entry in PersistentFor(baseline, candidate, route) <==>
        if Improves(baseline, candidate, route)
        then candidate.Count(route.key) > 0 && entry.selectedSource == FromCandidate
             && entry.route in candidate.routes && entry.route.key == route.key
        else entry == Persistent(route, FromBaseline)
    {
      PersistentOf(baseline, candidate, route, entry);
    }
    hide Sort, Selection, PersistentFor, Improves;
  }

  lemma PersistentOf(baseline: Evaluation, candidate: Evaluation, route: Route, entry: Persistent)
    requires candidate.RoutesOnce()
    ensures entry in PersistentFor(baseline, candidate, route) <==>
      if Improves(baseline, candidate, route)
      then candidate.Count(route.key) > 0 && entry.selectedSource == FromCandidate
           && entry.route in candidate.routes && entry.route.key == route.key
      else entry == Persistent(route, FromBaseline)
  {
    DecisionMeaning(baseline, candidate, route);
    OnlyRoute(candidate, route.key);
    hide Compare, Improves, Evaluation.RoutesOnce, Evaluation.RouteFor, Evaluation.Count;
  }
}
