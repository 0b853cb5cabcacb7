/**
 * The retry overlay: failed cases of the four primary workers are replaced by
 * what a different worker completed, one planned failure after another.
 */
module OperationalRetries {
  import opened Sequences
  import opened RunSummaries

  datatype Failure = Failure(suite: string, caseId: string, primary: int, retryWorker: int)

  datatype Plan = Plan(schema: string, sha: string, failedInputCount: int, differentWorkerOnly: bool,
                       failures: seq<Failure>)

  datatype Outcome = Outcome(failure: Failure, accepted: bool)

  datatype Receipt = Receipt(planSha: string, planned: nat, accepted: nat, unresolved: nat, outcomes: seq<Outcome>)

  datatype Error = BadSources | OutputExists | BadPlan | BadRetryResults | BadFailure(failure: Failure)

  // The retry results.

  predicate RetrySummaryValid(summary: Summary) {
    && summary.candidateId == EXPECTED_CANDIDATE_ID
    && summary.artifactManifestSha == EXPECTED_ARTIFACT_SHA256
    && LookupOk(summary)
  }

  predicate RetriesValid(retries: Trees) {
    forall worker, k :: worker in retries && 0 <= k < |SUITES| && SUITES[k] in retries[worker].summaries ==>
      RetrySummaryValid(retries[worker].summaries[SUITES[k]])
  }

  function RetryCase(retries: Trees, failure: Failure): Option<Case> {
    if !IsSuite(failure.suite) || !HasCases(retries, failure.retryWorker, failure.suite) then None
    else
      var cases := CasesAt(retries, failure.retryWorker, failure.suite);
      var k := Find(cases, failure.caseId);
      if k.None? then None else Some(cases[k.value])
  }

  predicate Completes(retries: Trees, failure: Failure) {
    RetryCase(retries, failure).Some? && RetryCase(retries, failure).value.status == "completed"
  }

  // One planned failure.

  function Key(failure: Failure): FileKey {
    (failure.suite, failure.caseId)
  }

  /** The failed primary case a plan entry points at, if there is one. */
  function Target(trees: Trees, failure: Failure): Option<nat> {
    CaseIndex(trees, failure.primary, failure.suite, failure.caseId)
  }

  predicate TargetFailed(trees: Trees, failure: Failure) {
    var k := Target(trees, failure);
    k.Some? && CasesAt(trees, failure.primary, failure.suite)[k.value].status == "failed"
  }

  /** The retry's artifacts are there and the Markdown has the recorded hash. */
  predicate ArtifactsBound(retries: Trees, failure: Failure) {
    && failure.retryWorker in retries
    && RetryCase(retries, failure).Some?
    && Key(failure) in retries[failure.retryWorker].markdown
    && retries[failure.retryWorker].markdown[Key(failure)] == RetryCase(retries, failure).value.markdownSha
    && Key(failure) in retries[failure.retryWorker].models
  }

  predicate StepOk(trees: Trees, retries: Trees, failure: Failure) {
    && failure.primary != failure.retryWorker
    && RetryCase(retries, failure).Some?
    && RetryCase(retries, failure).value.status in {"completed", "failed"}
    && TargetFailed(trees, failure)
    && (Completes(retries, failure) ==> ArtifactsBound(retries, failure))
  }

  function Recovered(original: Case, retry: Case): Case {
    original.(status := "completed", markdownSha := retry.markdownSha, markdownCharacters := retry.markdownCharacters)
  }

  function StepTree(tree: WorkerTree, retries: Trees, failure: Failure, cases: seq<Case>): WorkerTree
    requires failure.suite in tree.summaries && tree.summaries[failure.suite].runs != []
  {
    var summaries := tree.summaries[failure.suite := WithCases(tree.summaries[failure.suite], cases)];
    if Completes(retries, failure) && ArtifactsBound(retries, failure) then
      var source := retries[failure.retryWorker];
      WorkerTree(summaries, tree.markdown[Key(failure) := source.markdown[Key(failure)]],
                 tree.models[Key(failure) := source.models[Key(failure)]])
    else tree.(summaries := summaries)
  }

  function StepCases(trees: Trees, retries: Trees, failure: Failure): seq<Case>
    requires StepOk(trees, retries, failure)
  {
    var cases, k := CasesAt(trees, failure.primary, failure.suite), Target(trees, failure).value;
    if Completes(retries, failure) then cases[k := Recovered(cases[k], RetryCase(retries, failure).value)] else cases
  }

  function Step(trees: Trees, retries: Trees, failure: Failure): Trees
    requires StepOk(trees, retries, failure)
  {
    trees[failure.primary := StepTree(trees[failure.primary], retries, failure, StepCases(trees, retries, failure))]
  }

  // The whole plan.

  predicate RunOk(trees: Trees, retries: Trees, failures: seq<Failure>)
    decreases |failures|, 0
  {
    failures == [] ||
    (RunOk(trees, retries, failures[..|failures| - 1])
     && StepOk(After(trees, retries, failures[..|failures| - 1]), retries, failures[|failures| - 1]))
  }

  function After(trees: Trees, retries: Trees, failures: seq<Failure>): Trees
    requires RunOk(trees, retries, failures)
    decreases |failures|, 1
  {
    if failures == [] then trees
    else Step(After(trees, retries, failures[..|failures| - 1]), retries, failures[|failures| - 1])
  }

  function Accepted(retries: Trees, failures: seq<Failure>): nat {
    if failures == [] then 0
    else Accepted(retries, failures[..|failures| - 1]) + if Completes(retries, failures[|failures| - 1]) then 1 else 0
  }

  function Outcomes(retries: Trees, failures: seq<Failure>): seq<Outcome> {
    seq(|failures|, k requires 0 <= k < |failures| => Outcome(failures[k], Completes(retries, failures[k])))
  }

  predicate InputsOk(primarySources: seq<Source>, retrySources: seq<Source>, plan: Plan) {
    && FourWorkers(primarySources)
    && |SourceMap(retrySources)| == |retrySources|
    && (forall worker :: worker in SourceMap(retrySources) ==> 0 <= worker <= 99)
    && plan.failedInputCount == |plan.failures|
    && plan.differentWorkerOnly
    && SourceMap(retrySources).Keys == (set failure | failure in plan.failures :: failure.retryWorker)
    && SummariesPresent(SourceMap(primarySources))
    && RetriesValid(SourceMap(retrySources))
  }

  /** The composite worker views under construction. */
  class Composite {
    var trees: Trees
    var written: bool

    constructor ()
      ensures trees == map[] && !written
    {
      trees, written := map[], false;
    }

    method ApplyFailure(retries: Trees, failure: Failure) returns (accepted: Option<bool>)
      modifies this
      ensures accepted.Some? <==> StepOk(old(trees), retries, failure)
      ensures accepted.Some? ==>
        trees == Step(old(trees), retries, failure) && accepted.value == Completes(retries, failure)
      ensures written == old(written)
    {
      if failure.primary == failure.retryWorker {
        return None;
      }
      var retryCase := RetryCase(retries, failure);
      if retryCase.None? {
        return None;
      }
      var k := Target(trees, failure);
      if k.None? {
        return None;
      }
      var cases := CasesAt(trees, failure.primary, failure.suite);
      if cases[k.value].status != "failed" {
        return None;
      }
      var tree := trees[failure.primary];
      if retryCase.value.status == "completed" {
        var source := retries[failure.retryWorker];
        if Key(failure) !in source.markdown || source.markdown[Key(failure)] != retryCase.value.markdownSha {
          return None;
        }
        tree := tree.(markdown := tree.markdown[Key(failure) := source.markdown[Key(failure)]]);
        trees := trees[failure.primary := tree];
        if Key(failure) !in source.models {
          return None;
        }
        tree := tree.(models := tree.models[Key(failure) := source.models[Key(failure)]]);
        cases := cases[k.value := Recovered(cases[k.value], retryCase.value)];
        accepted := Some(true);
      } else if retryCase.value.status == "failed" {
        accepted := Some(false);
      } else {
        return None;
      }
      tree := tree.(summaries := tree.summaries[failure.suite := WithCases(tree.summaries[failure.suite], cases)]);
      trees := trees[failure.primary := tree];
    }

    method ApplyOperationalRetries(primarySources: seq<Source>, retrySources: seq<Source>, plan: Plan)
      returns (result: Result<Receipt, Error>)
      modifies this
      ensures result.Ok? <==>
        !old(written) && InputsOk(primarySources, retrySources, plan)
        && RunOk(SourceMap(primarySources), SourceMap(retrySources), plan.failures)
      ensures result.Ok? ==>
        var retries := SourceMap(retrySources);
        && trees == After(SourceMap(primarySources), retries, plan.failures)
        && result.value.planSha == plan.sha
        && result.value.planned == |plan.failures|
        && result.value.accepted == Accepted(retries, plan.failures)
        && result.value.accepted + result.value.unresolved == result.value.planned
        && result.value.outcomes == Outcomes(retries, plan.failures)
    {
      if written {
        return Err(OutputExists);
      }
      if !InputsOk(primarySources, retrySources, plan) {
        return Err(BadSources);
      }
      hide *;
      trees, written := SourceMap(primarySources), true;
      result := RunPlan(SourceMap(retrySources), plan);
    }

    /** The loop over the planned failures. */
    method RunPlan(retries: Trees, plan: Plan) returns (result: Result<Receipt, Error>)
      modifies this
      ensures result.Ok? <==> RunOk(old(trees), retries, plan.failures)
      ensures result.Ok? ==>
        && trees == After(old(trees), retries, plan.failures)
        && result.value.planSha == plan.sha
        && result.value.planned == |plan.failures|
        && result.value.accepted == Accepted(retries, plan.failures)
        && result.value.accepted + result.value.unresolved == result.value.planned
        && result.value.outcomes == Outcomes(retries, plan.failures)
    {
      ghost var primaries := trees;
      var failures := plan.failures;
      var accepted, unresolved := 0, 0;
      var outcomes: seq<Outcome> := [];
      StartOfRun(primaries, retries);
      hide *;
      for k := 0 to |failures|
        invariant RunOk(primaries, retries, failures[..k])
        invariant trees == After(primaries, retries, failures[..k])
        invariant accepted == Accepted(retries, failures[..k]) && accepted + unresolved == k
        invariant outcomes == Outcomes(retries, failures[..k])
      {
        var failure := failures[k];
        assert failures[..k + 1] == failures[..k] + [failure];
        NextOfRun(primaries, retries, failures[..k], failure);
        var step := ApplyFailure(retries, failure);
        if step.None? {
          StuckPrefix(primaries, retries, failures, k + 1);
          return Err(BadFailure(failure));
        }
        if step.value {
          accepted := accepted + 1;
        } else {
          unresolved := unresolved + 1;
        }
        outcomes := outcomes + [Outcome(failure, step.value)];
      }
      assert failures[..|failures|] == failures;
      return Ok(Receipt(plan.sha, |failures|, accepted, unresolved, outcomes));
    }
  }

  lemma StartOfRun(trees: Trees, retries: Trees)
    ensures RunOk(trees, retries, []) && After(trees, retries, []) == trees
    ensures Accepted(retries, []) == 0 && Outcomes(retries, []) == []
  {
  }

  lemma NextOfRun(trees: Trees, retries: Trees, done: seq<Failure>, next: Failure)
    requires RunOk(trees, retries, done)
    ensures RunOk(trees, retries, done + [next]) <==> StepOk(After(trees, retries, done), retries, next)
    ensures RunOk(trees, retries, done + [next]) ==>
      After(trees, retries, done + [next]) == Step(After(trees, retries, done), retries, next)
    ensures Accepted(retries, done + [next]) == Accepted(retries, done) + if Completes(retries, next) then 1 else 0
    ensures Outcomes(retries, done + [next]) == Outcomes(retries, done) + [Outcome(next, Completes(retries, next))]
  {
    hide StepOk, Step, Completes;
    assert (done + [next])[..|done|] == done;
  }

  lemma {:induction false} StuckPrefix(trees: Trees, retries: Trees, failures: seq<Failure>, k: nat)
    requires k <= |failures| && !RunOk(trees, retries, failures[..k])
    ensures !RunOk(trees, retries, failures)
    decreases |failures| - k
  {
    if k == |failures| {
      assert failures[..k] == failures;
    } else {
      assert failures[..k + 1][..k] == failures[..k];
      StuckPrefix(trees, retries, failures, k + 1);
    }
  }

  /** With a result and a target at hand, a step is taken exactly for a failed target retried elsewhere. */
  lemma StepAcceptsIff(trees: Trees, retries: Trees, failure: Failure, retry: Case)
    requires RetryCase(retries, failure) == Some(retry) && Target(trees, failure).Some?
    ensures StepOk(trees, retries, failure) <==>
      && failure.primary != failure.retryWorker
      && CasesAt(trees, failure.primary, failure.suite)[Target(trees, failure).value].status == "failed"
      && (retry.status == "failed"
          || (retry.status == "completed"
              && var source := retries[failure.retryWorker];
                 && Key(failure) in source.markdown && source.markdown[Key(failure)] == retry.markdownSha
                 && Key(failure) in source.models))
  {
    hide Find;
    assert "failed"[0] != "completed"[0];
  }

  // What one step changes.

  lemma StepFrame(trees: Trees, retries: Trees, failure: Failure)
    requires StepOk(trees, retries, failure)
    ensures SameFrame(trees, Step(trees, retries, failure))
  {
    hide CaseIndex, Completes, ArtifactsBound, CountStatus;
    var summary := trees[failure.primary].summaries[failure.suite];
    FrameOfUpdate(summary, StepCases(trees, retries, failure));
  }

  lemma StepCasesAt(trees: Trees, retries: Trees, failure: Failure, worker: int, suite: string)
    requires StepOk(trees, retries, failure) && HasCases(trees, worker, suite)
    ensures HasCases(Step(trees, retries, failure), worker, suite)
    ensures CasesAt(Step(trees, retries, failure), worker, suite)
         == if worker == failure.primary && suite == failure.suite then StepCases(trees, retries, failure)
            else CasesAt(trees, worker, suite)
  {
    hide Target, Completes, ArtifactsBound, CountStatus;
  }

  /** A case is as it was, or it was failed and a planned retry on another worker completed it. */
  ghost predicate Explained(retries: Trees, failures: seq<Failure>, worker: int, suite: string, before: Case,
                            after: Case) {
    after == before
    || exists failure :: failure in failures && Explains(retries, failure, worker, suite, before, after)
  }

  ghost predicate Explains(retries: Trees, failure: Failure, worker: int, suite: string, before: Case, after: Case) {
    && failure.primary == worker && failure.suite == suite && failure.caseId == before.caseId
    && failure.primary != failure.retryWorker
    && before.status == "failed"
    && Completes(retries, failure)
    && after == Recovered(before, RetryCase(retries, failure).value)
  }

  ghost predicate ListExplained(retries: Trees, failures: seq<Failure>, worker: int, suite: string, before: seq<Case>,
                                after: seq<Case>) {
    && SameIds(before, after)
    && forall k :: 0 <= k < |before| ==> Explained(retries, failures, worker, suite, before[k], after[k])
  }

  lemma ExplainedLonger(retries: Trees, failures: seq<Failure>, next: Failure, worker: int, suite: string,
                        before: Case, after: Case)
    requires Explained(retries, failures, worker, suite, before, after)
    ensures Explained(retries, failures + [next], worker, suite, before, after)
  {
    hide Explains;
    if after != before {
      var failure :| failure in failures && Explains(retries, failure, worker, suite, before, after);
      assert failure in failures + [next];
    }
  }

  lemma StepExplained(trees: Trees, retries: Trees, done: seq<Failure>, next: Failure, before: seq<Case>)
    requires StepOk(trees, retries, next)
    requires ListExplained(retries, done, next.primary, next.suite, before, CasesAt(trees, next.primary, next.suite))
    ensures ListExplained(retries, done + [next], next.primary, next.suite, before, StepCases(trees, retries, next))
  {
    var now, later := CasesAt(trees, next.primary, next.suite), StepCases(trees, retries, next);
    var k := Target(trees, next).value;
    hide Completes, ArtifactsBound, Explained;
    assert SameIds(before, later);
    forall i | 0 <= i < |before| ensures Explained(retries, done + [next], next.primary, next.suite, before[i],
                                                   later[i]) {
      ExplainedLonger(retries, done, next, next.primary, next.suite, before[i], now[i]);
      if i == k && later[k] != now[k] {
        FailedIsOriginal(retries, done, next.primary, next.suite, before[k], now[k]);
        RecoveryExplains(retries, done, next, before[k]);
      }
    }
  }

  lemma FailedIsOriginal(retries: Trees, failures: seq<Failure>, worker: int, suite: string, before: Case, after: Case)
    requires Explained(retries, failures, worker, suite, before, after) && after.status == "failed"
    ensures after == before
  {
  }

  lemma RecoveryExplains(retries: Trees, done: seq<Failure>, next: Failure, before: Case)
    requires before.status == "failed" && before.caseId == next.caseId && next.primary != next.retryWorker
    requires Completes(retries, next)
    ensures Explained(retries, done + [next], next.primary, next.suite, before,
                      Recovered(before, RetryCase(retries, next).value))
  {
    assert next in done + [next];
    assert Explains(retries, next, next.primary, next.suite, before, Recovered(before, RetryCase(retries, next).value));
  }

  // What a whole run changes.

  lemma {:induction false} RunIsExplained(trees: Trees, retries: Trees, failures: seq<Failure>, worker: int,
                                          suite: string)
    requires RunOk(trees, retries, failures) && HasCases(trees, worker, suite)
    ensures SameFrame(trees, After(trees, retries, failures))
    ensures HasCases(After(trees, retries, failures), worker, suite)
    ensures ListExplained(retries, failures, worker, suite,
                          CasesAt(trees, worker, suite), CasesAt(After(trees, retries, failures), worker, suite))
    decreases |failures|
  {
    hide *;
    if failures != [] {
      var done, next := failures[..|failures| - 1], failures[|failures| - 1];
      assert failures == done + [next];
      PrefixOfRun(trees, retries, done, next);
      RunIsExplained(trees, retries, done, worker, suite);
      LastStep(trees, retries, done, next, worker, suite);
    } else {
      StartOfRun(trees, retries);
      NothingChanged(trees, retries, worker, suite);
    }
  }

  lemma PrefixOfRun(trees: Trees, retries: Trees, done: seq<Failure>, next: Failure)
    requires RunOk(trees, retries, done + [next])
    ensures RunOk(trees, retries, done) && StepOk(After(trees, retries, done), retries, next)
    ensures After(trees, retries, done + [next]) == Step(After(trees, retries, done), retries, next)
  {
    hide StepOk, Step;
    assert (done + [next])[..|done|] == done;
  }

  lemma NothingChanged(trees: Trees, retries: Trees, worker: int, suite: string)
    requires HasCases(trees, worker, suite)
    ensures SameFrame(trees, trees)
    ensures ListExplained(retries, [], worker, suite, CasesAt(trees, worker, suite), CasesAt(trees, worker, suite))
  {
  }

  lemma LastStep(trees: Trees, retries: Trees, done: seq<Failure>, next: Failure, worker: int, suite: string)
    requires RunOk(trees, retries, done) && StepOk(After(trees, retries, done), retries, next)
    requires HasCases(trees, worker, suite) && HasCases(After(trees, retries, done), worker, suite)
    requires SameFrame(trees, After(trees, retries, done))
    requires ListExplained(retries, done, worker, suite,
                           CasesAt(trees, worker, suite), CasesAt(After(trees, retries, done), worker, suite))
    ensures var now := Step(After(trees, retries, done), retries, next);
      && SameFrame(trees, now) && HasCases(now, worker, suite)
      && ListExplained(retries, done + [next], worker, suite, CasesAt(trees, worker, suite),
                       CasesAt(now, worker, suite))
  {
    var now := After(trees, retries, done);
    var before := CasesAt(trees, worker, suite);
    hide *;
    StepFrame(now, retries, next);
    SameFrameCompose(trees, now, Step(now, retries, next));
    StepCasesAt(now, retries, next, worker, suite);
    if worker == next.primary && suite == next.suite {
      StepExplained(now, retries, done, next, before);
    } else {
      ListExplainedLonger(retries, done, next, worker, suite, before, CasesAt(now, worker, suite));
    }
  }

  lemma ListExplainedLonger(retries: Trees, failures: seq<Failure>, next: Failure, worker: int, suite: string,
                            before: seq<Case>, after: seq<Case>)
    requires ListExplained(retries, failures, worker, suite, before, after)
    ensures ListExplained(retries, failures + [next], worker, suite, before, after)
  {
    hide Explained;
    forall k | 0 <= k < |before| ensures Explained(retries, failures + [next], worker, suite, before[k], after[k]) {
      ExplainedLonger(retries, failures, next, worker, suite, before[k], after[k]);
    }
  }

  // What became of each planned case.

  ghost function TargetCase(trees: Trees, failure: Failure): Case
    requires Target(trees, failure).Some?
  {
    CasesAt(trees, failure.primary, failure.suite)[Target(trees, failure).value]
  }

  lemma TargetSurvives(trees: Trees, retries: Trees, failures: seq<Failure>, failure: Failure)
    requires RunOk(trees, retries, failures)
    ensures Target(After(trees, retries, failures), failure) == Target(trees, failure)
    ensures Target(trees, failure).Some? ==>
      Explained(retries, failures, failure.primary, failure.suite,
                TargetCase(trees, failure), TargetCase(After(trees, retries, failures), failure))
  {
    var now := After(trees, retries, failures);
    hide RunOk, After, SameFrame, Find, Explained;
    if HasCases(trees, failure.primary, failure.suite) {
      RunIsExplained(trees, retries, failures, failure.primary, failure.suite);
      FindIgnoresContent(CasesAt(trees, failure.primary, failure.suite), CasesAt(now, failure.primary, failure.suite),
                         failure.caseId);
    } else {
      RunKeepsFrame(trees, retries, failures);
      SameFrameCases(trees, now, failure.primary, failure.suite);
    }
  }

  lemma {:induction false} RunKeepsFrame(trees: Trees, retries: Trees, failures: seq<Failure>)
    requires RunOk(trees, retries, failures)
    ensures SameFrame(trees, After(trees, retries, failures))
    decreases |failures|
  {
    hide StepOk, Step, Frame;
    if failures != [] {
      var done := failures[..|failures| - 1];
      RunKeepsFrame(trees, retries, done);
      StepFrame(After(trees, retries, done), retries, failures[|failures| - 1]);
    }
  }

  /** What the composite holds for a planned case in the end. */
  ghost function Expected(trees: Trees, retries: Trees, failure: Failure): Case
    requires Target(trees, failure).Some?
  {
    if Completes(retries, failure) then Recovered(TargetCase(trees, failure), RetryCase(retries, failure).value)
    else TargetCase(trees, failure)
  }

  /** Every planned case was failed, and a completed retry is what the composite ends up with. */
  lemma {:induction false} PlannedCase(trees: Trees, retries: Trees, failures: seq<Failure>, i: nat)
    requires RunOk(trees, retries, failures) && i < |failures|
    ensures failures[i].primary != failures[i].retryWorker
    ensures TargetFailed(trees, failures[i])
    ensures Completes(retries, failures[i]) ==>
      Target(After(trees, retries, failures), failures[i]).Some?
      && TargetCase(After(trees, retries, failures), failures[i]) == Expected(trees, retries, failures[i])
    decreases |failures|
  {
    hide *;
    var n := |failures| - 1;
    var done, next, failure := failures[..n], failures[n], failures[i];
    assert failures == done + [next];
    PrefixOfRun(trees, retries, done, next);
    var now := After(trees, retries, done);
    TargetSurvives(trees, retries, done, failure);
    if i < n {
      assert done[i] == failure;
      PlannedCase(trees, retries, done, i);
      FailedTargetExists(trees, failure);
      StepElsewhere(trees, now, retries, failure, next);
    } else {
      StepHere(trees, now, retries, done, failure);
    }
  }

  lemma StepElsewhere(trees: Trees, now: Trees, retries: Trees, failure: Failure, next: Failure)
    requires StepOk(now, retries, next) && Target(trees, failure).Some?
    requires Completes(retries, failure) ==>
      Target(now, failure).Some? && TargetCase(now, failure) == Expected(trees, retries, failure)
    ensures Completes(retries, failure) ==>
      Target(Step(now, retries, next), failure).Some?
      && TargetCase(Step(now, retries, next), failure) == Expected(trees, retries, failure)
  {
    if Completes(retries, failure) {
      assert TargetCase(now, failure).status == "completed";
      TargetAfterStep(now, retries, failure, next);
    }
  }

  /** A step leaves every case alone that is not failed. */
  lemma TargetAfterStep(now: Trees, retries: Trees, failure: Failure, next: Failure)
    requires StepOk(now, retries, next) && Target(now, failure).Some?
    ensures Target(Step(now, retries, next), failure) == Target(now, failure)
    ensures TargetCase(now, failure).status != "failed" ==>
      TargetCase(Step(now, retries, next), failure) == TargetCase(now, failure)
  {
    StepCasesAt(now, retries, next, failure.primary, failure.suite);
    var cases := CasesAt(now, failure.primary, failure.suite);
    var later := CasesAt(Step(now, retries, next), failure.primary, failure.suite);
    hide Step, Completes, ArtifactsBound, Find;
    FindIgnoresContent(cases, later, failure.caseId);
  }

  lemma StepHere(trees: Trees, now: Trees, retries: Trees, done: seq<Failure>, failure: Failure)
    requires StepOk(now, retries, failure)
    requires Target(now, failure) == Target(trees, failure)
    requires Target(trees, failure).Some? ==>
      Explained(retries, done, failure.primary, failure.suite, TargetCase(trees, failure), TargetCase(now, failure))
    ensures failure.primary != failure.retryWorker && TargetFailed(trees, failure)
    ensures Completes(retries, failure) ==>
      Target(Step(now, retries, failure), failure).Some?
      && TargetCase(Step(now, retries, failure), failure) == Expected(trees, retries, failure)
  {
    FailedIsOriginal(retries, done, failure.primary, failure.suite, TargetCase(trees, failure),
                     TargetCase(now, failure));
    StepCasesAt(now, retries, failure, failure.primary, failure.suite);
    TargetAfterStep(now, retries, failure, failure);
  }

  // Plans that name every case once.

  ghost predicate NamesCasesOnce(failures: seq<Failure>) {
    forall i, j :: 0 <= i < j < |failures| ==> Key(failures[i]) != Key(failures[j])
  }

  /** With a duplicate-free plan every planned case ends exactly as its own retry says. */
  lemma PlannedCaseOutcome(trees: Trees, retries: Trees, failures: seq<Failure>, i: nat)
    requires RunOk(trees, retries, failures) && i < |failures| && NamesCasesOnce(failures)
    ensures TargetFailed(trees, failures[i])
    ensures Target(After(trees, retries, failures), failures[i]) == Target(trees, failures[i])
    ensures TargetCase(After(trees, retries, failures), failures[i]) == Expected(trees, retries, failures[i])
  {
    var failure := failures[i];
    TargetSurvives(trees, retries, failures, failure);
    PlannedCase(trees, retries, failures, i);
    var now := After(trees, retries, failures);
    hide RunOk, After, Target, Completes, RetryCase, NamesCasesOnce;
    if !Completes(retries, failure) && TargetCase(now, failure) != TargetCase(trees, failure) {
      var other :| other in failures
        && Explains(retries, other, failure.primary, failure.suite, TargetCase(trees, failure),
                    TargetCase(now, failure));
      var j :| 0 <= j < |failures| && failures[j] == other;
      FoundById(trees, failure);
      SameKeySameEntry(failures, i, j);
    }
  }

  lemma SameKeySameEntry(failures: seq<Failure>, i: nat, j: nat)
    requires i < |failures| && j < |failures| && NamesCasesOnce(failures) && Key(failures[i]) == Key(failures[j])
    ensures i == j
  {
  }

  lemma FoundById(trees: Trees, failure: Failure)
    requires Target(trees, failure).Some?
    ensures TargetCase(trees, failure).caseId == failure.caseId
  {
  }

  // Artifacts and totals.

  /** The files beside a case of the composite. */
  ghost predicate FilesBeside(trees: Trees, failure: Failure, markdownSha: string, modelSha: string) {
    && failure.primary in trees
    && Key(failure) in trees[failure.primary].markdown && Key(failure) in trees[failure.primary].models
    && trees[failure.primary].markdown[Key(failure)] == markdownSha
    && trees[failure.primary].models[Key(failure)] == modelSha
  }

  /** The model payload a retry worker holds for the case. */
  ghost function RetryModel(retries: Trees, failure: Failure): Option<string> {
    if failure.retryWorker in retries && Key(failure) in retries[failure.retryWorker].models
    then Some(retries[failure.retryWorker].models[Key(failure)]) else None
  }

  lemma FilesAfterStep(now: Trees, retries: Trees, failure: Failure, next: Failure, markdownSha: string,
                       modelSha: string)
    requires StepOk(now, retries, next) && FilesBeside(now, failure, markdownSha, modelSha)
    requires Target(now, failure).Some? && TargetCase(now, failure).status != "failed"
    ensures FilesBeside(Step(now, retries, next), failure, markdownSha, modelSha)
  {
    hide Find, CountStatus;
    assert (next.primary, Key(next)) != (failure.primary, Key(failure));
  }

  lemma FilesOfStep(now: Trees, retries: Trees, failure: Failure)
    requires StepOk(now, retries, failure) && Completes(retries, failure)
    ensures RetryModel(retries, failure).Some?
    ensures FilesBeside(Step(now, retries, failure), failure, RetryCase(retries, failure).value.markdownSha,
                        RetryModel(retries, failure).value)
  {
    hide Find, CountStatus;
  }

  /** To the end of the run, a recovered case stands beside the retry's own Markdown and the retry's own model. */
  lemma {:induction false} RecoveredFilesAreBound(trees: Trees, retries: Trees, failures: seq<Failure>, i: nat)
    requires RunOk(trees, retries, failures) && i < |failures| && Completes(retries, failures[i])
    ensures Target(After(trees, retries, failures), failures[i]).Some?
    ensures RetryModel(retries, failures[i]).Some?
    ensures FilesBeside(After(trees, retries, failures), failures[i],
                        TargetCase(After(trees, retries, failures), failures[i]).markdownSha,
                        RetryModel(retries, failures[i]).value)
    decreases |failures|
  {
    hide *;
    var n := |failures| - 1;
    var done, next, failure := failures[..n], failures[n], failures[i];
    assert failures == done + [next];
    PrefixOfRun(trees, retries, done, next);
    PlannedCase(trees, retries, failures, i);
    FailedTargetExists(trees, failure);
    ExpectedIsCompleted(trees, retries, failure);
    if i < n {
      assert done[i] == failure;
      PlannedCase(trees, retries, done, i);
      RecoveredFilesAreBound(trees, retries, done, i);
      FilesAfterStep(After(trees, retries, done), retries, failure, next,
                     RetryCase(retries, failure).value.markdownSha, RetryModel(retries, failure).value);
    } else {
      FilesOfStep(After(trees, retries, done), retries, failure);
    }
  }

  /** A recovered record is the failed one with the status, Markdown hash and length of the completed retry. */
  lemma RecoveredRecord(trees: Trees, retries: Trees, failures: seq<Failure>, i: nat)
    requires RunOk(trees, retries, failures) && i < |failures| && Completes(retries, failures[i])
    ensures Target(trees, failures[i]).Some? && Target(After(trees, retries, failures), failures[i]).Some?
    ensures RetryCase(retries, failures[i]).Some?
    ensures var before, retry := TargetCase(trees, failures[i]), RetryCase(retries, failures[i]).value;
      TargetCase(After(trees, retries, failures), failures[i])
        == Case(before.caseId, "completed", retry.markdownSha, retry.markdownCharacters, before.artifactSha,
                before.error)
  {
    PlannedCase(trees, retries, failures, i);
    hide RunOk, After, Find;
  }

  /** The counters of every summary that a planned failure touches are right in the end. */
  lemma {:induction false} TouchedCountersAreRight(trees: Trees, retries: Trees, failures: seq<Failure>, i: nat)
    requires RunOk(trees, retries, failures) && i < |failures|
    ensures var now := After(trees, retries, failures);
      && HasCases(now, failures[i].primary, failures[i].suite)
      && CountersRight(now[failures[i].primary].summaries[failures[i].suite])
    decreases |failures|
  {
    hide *;
    var n := |failures| - 1;
    var done, next := failures[..n], failures[n];
    assert failures == done + [next];
    PrefixOfRun(trees, retries, done, next);
    StepCounters(After(trees, retries, done), retries, next);
    if i < n {
      assert done[i] == failures[i];
      TouchedCountersAreRight(trees, retries, done, i);
      StepLeavesCounters(After(trees, retries, done), retries, next, failures[i].primary, failures[i].suite);
    }
  }

  lemma StepCounters(now: Trees, retries: Trees, next: Failure)
    requires StepOk(now, retries, next)
    ensures HasCases(Step(now, retries, next), next.primary, next.suite)
    ensures CountersRight(Step(now, retries, next)[next.primary].summaries[next.suite])
  {
    hide Find, CountStatus, WithStatus, CountersRight;
    RecountedIsRight(now[next.primary].summaries[next.suite], StepCases(now, retries, next));
  }

  lemma StepLeavesCounters(now: Trees, retries: Trees, next: Failure, worker: int, suite: string)
    requires StepOk(now, retries, next) && HasCases(now, worker, suite) && CountersRight(now[worker].summaries[suite])
    ensures HasCases(Step(now, retries, next), worker, suite)
    ensures CountersRight(Step(now, retries, next)[worker].summaries[suite])
  {
    StepCounters(now, retries, next);
    hide Find, CountStatus, WithStatus, CountersRight, StepCases;
  }

  lemma FailedTargetExists(trees: Trees, failure: Failure)
    requires TargetFailed(trees, failure)
    ensures Target(trees, failure).Some?
  {
  }

  lemma ExpectedIsCompleted(trees: Trees, retries: Trees, failure: Failure)
    requires Target(trees, failure).Some? && Completes(retries, failure)
    ensures RetryCase(retries, failure).Some?
    ensures Expected(trees, retries, failure).status == "completed" != "failed"
    ensures Expected(trees, retries, failure).markdownSha == RetryCase(retries, failure).value.markdownSha
  {
  }

  /** A completed retry of this case on this worker was planned. */
  ghost predicate Replaces(retries: Trees, failures: seq<Failure>, worker: int, key: FileKey) {
    exists failure :: failure in failures && failure.primary == worker && Key(failure) == key &&
      Completes(retries, failure)
  }

  lemma StepKeepsFiles(now: Trees, retries: Trees, next: Failure, worker: int, key: FileKey)
    requires StepOk(now, retries, next) && worker in now
    requires !(next.primary == worker && Key(next) == key && Completes(retries, next))
    ensures worker in Step(now, retries, next) && SameFiles(now[worker], Step(now, retries, next)[worker], key)
  {
    hide Find, CountStatus, LookupOk, RetryCase;
  }

  /** No file changes except those of a planned case whose retry completed. */
  lemma {:induction false} RunKeepsFiles(trees: Trees, retries: Trees, failures: seq<Failure>, worker: int,
                                         key: FileKey)
    requires RunOk(trees, retries, failures) && worker in trees && !Replaces(retries, failures, worker, key)
    ensures worker in After(trees, retries, failures)
    ensures SameFiles(trees[worker], After(trees, retries, failures)[worker], key)
    decreases |failures|
  {
    hide StepOk, Step, RunOk, After, Completes;
    if failures == [] {
      StartOfRun(trees, retries);
    } else {
      var done, next := failures[..|failures| - 1], failures[|failures| - 1];
      assert failures == done + [next];
      assert next in failures;
      PrefixOfRun(trees, retries, done, next);
      RunKeepsFiles(trees, retries, done, worker, key);
      StepKeepsFiles(After(trees, retries, done), retries, next, worker, key);
    }
  }

  lemma StepTotal(now: Trees, retries: Trees, next: Failure)
    requires StepOk(now, retries, next) && now.Keys == {0, 1, 2, 3}
    ensures CompletedIn(Step(now, retries, next), SLOTS)
         == CompletedIn(now, SLOTS) + if Completes(retries, next) then 1 else 0
  {
    var later, slot := Step(now, retries, next), (next.primary, next.suite);
    var delta := if Completes(retries, next) then 1 else 0;
    SlotOfStep(now, retries, next);
    StepFrame(now, retries, next);
    forall other: Slot | IsSlot(other.0, other.1) && other != slot ensures CompletedAt(later, other) ==
      CompletedAt(now, other) {
      OtherSlot(now, retries, next, other);
    }
    hide *;
    TotalChange(now, later, slot, delta);
  }

  lemma SlotOfStep(now: Trees, retries: Trees, next: Failure)
    requires StepOk(now, retries, next) && now.Keys == {0, 1, 2, 3}
    ensures IsSlot(next.primary, next.suite)
    ensures CompletedAt(Step(now, retries, next), (next.primary, next.suite))
         == CompletedAt(now, (next.primary, next.suite)) + if Completes(retries, next) then 1 else 0
  {
    StepIsInScope(now, retries, next);
    hide *;
    SlotMeaning(next.primary, next.suite);
    StepCasesAt(now, retries, next, next.primary, next.suite);
    CountOfStep(now, retries, next);
    CompletedAtSlot(now, next.primary, next.suite);
    CompletedAtSlot(Step(now, retries, next), next.primary, next.suite);
  }

  lemma StepIsInScope(now: Trees, retries: Trees, next: Failure)
    requires StepOk(now, retries, next)
    ensures next.primary in now && IsSuite(next.suite) && HasCases(now, next.primary, next.suite)
  {
  }

  lemma CountOfStep(now: Trees, retries: Trees, next: Failure)
    requires StepOk(now, retries, next)
    ensures CountStatus(StepCases(now, retries, next), "completed")
         == CountStatus(CasesAt(now, next.primary, next.suite), "completed") + if Completes(retries, next) then 1 else 0
  {
    var cases, k := CasesAt(now, next.primary, next.suite), Target(now, next).value;
    assert cases[k].status == "failed";
    var completes := Completes(retries, next);
    hide CountStatus, Find, ArtifactsBound, Completes;
    if completes {
      CountAfterUpdate(cases, k, Recovered(cases[k], RetryCase(retries, next).value), "completed");
    }
  }

  lemma OtherSlot(now: Trees, retries: Trees, next: Failure, other: Slot)
    requires StepOk(now, retries, next) && other != (next.primary, next.suite)
    ensures CompletedAt(Step(now, retries, next), other) == CompletedAt(now, other)
  {
    StepFrame(now, retries, next);
    SameFrameCases(now, Step(now, retries, next), other.0, other.1);
    if HasCases(now, other.0, other.1) {
      StepCasesAt(now, retries, next, other.0, other.1);
    }
  }

  /** The number of completed cases grows by exactly the accepted retries. */
  lemma {:induction false} AcceptedAreGained(trees: Trees, retries: Trees, failures: seq<Failure>)
    requires RunOk(trees, retries, failures) && trees.Keys == {0, 1, 2, 3}
    ensures CompletedIn(After(trees, retries, failures), SLOTS) == CompletedIn(trees, SLOTS) +
      Accepted(retries, failures)
    decreases |failures|
  {
    if failures == [] {
      hide CompletedIn;
    } else {
      var done, next := failures[..|failures| - 1], failures[|failures| - 1];
      assert failures == done + [next];
      hide *;
      PrefixOfRun(trees, retries, done, next);
      NextOfRun(trees, retries, done, next);
      AcceptedAreGained(trees, retries, done);
      KeysStay(trees, retries, done);
      StepTotal(After(trees, retries, done), retries, next);
    }
  }

  lemma KeysStay(trees: Trees, retries: Trees, failures: seq<Failure>)
    requires RunOk(trees, retries, failures)
    ensures After(trees, retries, failures).Keys == trees.Keys
  {
    RunKeepsFrame(trees, retries, failures);
  }
}
