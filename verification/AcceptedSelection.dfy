/**
 * Materialising accepted decisions: exactly the accepted cases of the
 * composite receive the candidate's artifact, everything else stays.
 */
module AcceptedSelection {
  import opened Sequences
  import opened Sorting
  import opened RunSummaries
  import AlternateCandidates
  import QualitySelection

  type Key = QualitySelection.Key

  /** The stage for MinerU quality retries, or the one for an alternate model. */
  datatype Kind = Quality | Alternate(model: string)

  const LAYOUT_SUITE := "parsebench"
  const QUALITY_MODEL := "mineru-3.4.4-vlm-quality-retry"
  const COMPARISON_SCHEMA := "folynta.public-core-official-failure-comparison.v1"

  datatype Plan = Plan(schema: string, recoveryModel: string, inputCount: int, routes: seq<PlanRoute>)
  datatype PlanRoute = PlanRoute(key: Key, primary: int)

  /** A comparison as read back; `policy` holds the names of the policies it declares. */
  datatype Comparison = Comparison(
    schema: string,
    policy: set<string>,
    acceptedCount: int,
    accepted: seq<QualitySelection.Decision>)

  const POLICIES := {
    "require_strict_failure_record_reduction", "forbid_new_failure_codes", "forbid_candidate_escalation",
    "unchanged_candidates_are_not_accepted"}

  datatype Error = OutputExists | BadInputs | BadCase(key: Key)

  // The dictionaries built from the two inputs; the last entry of a key counts.

  function Primaries(routes: seq<PlanRoute>): map<Key, int> {
    if routes == [] then map[]
    else Primaries(routes[..|routes| - 1])[routes[|routes| - 1].key := routes[|routes| - 1].primary]
  }

  /** A case's worker is that of the last route naming it. */
  lemma {:induction false} PrimariesHoldLast(routes: seq<PlanRoute>, key: Key, primary: int)
    ensures key in Primaries(routes) && Primaries(routes)[key] == primary <==>
      exists i :: 0 <= i < |routes| && routes[i] == PlanRoute(key, primary)
                  && forall j :: i < j < |routes| ==> routes[j].key != key
  {
    if routes != [] {
      var n := |routes| - 1;
      PrimariesHoldLast(routes[..n], key, primary);
      assert forall i :: 0 <= i < n ==> routes[..n][i] == routes[i];
      if routes[n].key == key {
        assert routes[n] == PlanRoute(key, routes[n].primary);
      }
    }
  }

  function ByKey(decisions: seq<QualitySelection.Decision>): (result: map<Key, QualitySelection.Decision>)
    ensures result.Keys == QualitySelection.DecisionKeys(decisions)
    ensures forall key :: key in result ==> result[key] in decisions && result[key].key == key
  {
    if decisions == [] then map[]
    else
      var n := |decisions| - 1;
      assert decisions == decisions[..n] + [decisions[n]];
      QualitySelection.DecisionAdded(decisions[..n], decisions[n]);
      ByKey(decisions[..n])[decisions[n].key := decisions[n]]
  }

  /** The completed case of a worker's tree that can be exchanged. */
  function Usable(trees: Trees, worker: int, key: Key): (k: Option<nat>)
    ensures k.Some? ==>
      && HasCases(trees, worker, key.0) && k.value < |CasesAt(trees, worker, key.0)|
      && CasesAt(trees, worker, key.0)[k.value].caseId == key.1
      && LookupOk(trees[worker].summaries[key.0])
  {
    if !HasCases(trees, worker, key.0) then None
    else
      var summary := trees[worker].summaries[key.0];
      if summary.candidateId != EXPECTED_CANDIDATE_ID || summary.artifactManifestSha != EXPECTED_ARTIFACT_SHA256
         || !LookupOk(summary) then None
      else
        var k := Find(summary.runs[0].cases, key.1);
        if k.None? || summary.runs[0].cases[k.value].status != "completed" then None else k
  }

  predicate NeedsModel(kind: Kind, key: Key) {
    kind.Quality? || key.0 == LAYOUT_SUITE
  }

  predicate StepOk(kind: Kind, trees: Trees, candidates: Trees, worker: int, key: Key) {
    var k := Usable(candidates, worker, key);
    && Usable(trees, worker, key).Some? && k.Some?
    && key in candidates[worker].markdown
    && candidates[worker].markdown[key] == CasesAt(candidates, worker, key.0)[k.value].markdownSha
    && (NeedsModel(kind, key) ==> key in candidates[worker].models)
  }

  function Exchanged(original: Case, candidate: Case): Case {
    original.(markdownSha := candidate.markdownSha, markdownCharacters := candidate.markdownCharacters)
  }

  /** Only the case list changes; counters and identity stay. */
  function WithCaseList(summary: Summary, cases: seq<Case>): Summary
    requires summary.runs != []
  {
    summary.(runs := [summary.runs[0].(cases := cases)] + summary.runs[1..])
  }

  function CandidateCase(candidates: Trees, worker: int, key: Key): Case
    requires Usable(candidates, worker, key).Some?
  {
    CasesAt(candidates, worker, key.0)[Usable(candidates, worker, key).value]
  }

  function StepCases(kind: Kind, trees: Trees, candidates: Trees, worker: int, key: Key): seq<Case>
    requires StepOk(kind, trees, candidates, worker, key)
  {
    var cases, k := CasesAt(trees, worker, key.0), Usable(trees, worker, key).value;
    cases[k := Exchanged(cases[k], CandidateCase(candidates, worker, key))]
  }

  function Step(kind: Kind, trees: Trees, candidates: Trees, worker: int, key: Key): Trees
    requires StepOk(kind, trees, candidates, worker, key)
  {
    var tree, source := trees[worker], candidates[worker];
    var summary := WithCaseList(tree.summaries[key.0], StepCases(kind, trees, candidates, worker, key));
    trees[worker := WorkerTree(tree.summaries[key.0 := summary], tree.markdown[key := source.markdown[key]],
                               if NeedsModel(kind, key) then tree.models[key := source.models[key]] else tree.models)]
  }

  /** What the selection leaves of one case: the candidate's artifact when accepted, the baseline otherwise. */
  ghost function Expected(candidates: Trees, routes: map<Key, int>, applied: set<Key>, worker: int, suite: string,
                          before: Case): Case {
    var key := (suite, before.caseId);
    if key in applied && key in routes && routes[key] == worker && Usable(candidates, worker, key).Some?
    then
      var candidate := CandidateCase(candidates, worker, key);
      Case(before.caseId, before.status, candidate.markdownSha, candidate.markdownCharacters, before.artifactSha,
           before.error)
    else before
  }

  ghost predicate ListSelected(candidates: Trees, routes: map<Key, int>, applied: set<Key>, worker: int, suite: string,
                               before: seq<Case>, after: seq<Case>) {
    && |after| == |before|
    && forall k :: 0 <= k < |before| ==> after[k] == Expected(candidates, routes, applied, worker, suite, before[k])
  }

  /** Exchanging completed cases leaves the counters of a run as they are. */
  predicate SameCounters(run: Run, other: Run) {
    run.completed == other.completed && run.failed == other.failed
  }

  ghost predicate SlotSelected(base: Trees, now: Trees, candidates: Trees, routes: map<Key, int>, applied: set<Key>,
                               worker: int, suite: string) {
    HasCases(base, worker, suite) ==>
      HasCases(now, worker, suite)
      && ListSelected(candidates, routes, applied, worker, suite, CasesAt(base, worker, suite),
                      CasesAt(now, worker, suite))
      && SameCounters(base[worker].summaries[suite].runs[0], now[worker].summaries[suite].runs[0])
  }

  /** The files beside an accepted case are the candidate's: its Markdown, and its model unless only layouts count. */
  ghost predicate FilesSelected(kind: Kind, now: Trees, candidates: Trees, routes: map<Key, int>, key: Key) {
    && key in routes && routes[key] in now && routes[key] in candidates
    && key in now[routes[key]].markdown && key in candidates[routes[key]].markdown
    && now[routes[key]].markdown[key] == candidates[routes[key]].markdown[key]
    && (kind == Quality || key.0 == "parsebench" ==>
          && key in now[routes[key]].models && key in candidates[routes[key]].models
          && now[routes[key]].models[key] == candidates[routes[key]].models[key])
  }

  /** An accepted case could be exchanged: completed on both sides. */
  ghost predicate CaseExchanged(base: Trees, candidates: Trees, routes: map<Key, int>, key: Key) {
    && key in routes && Usable(base, routes[key], key).Some? && Usable(candidates, routes[key], key).Some?
  }

  /** The files of a case are the baseline's, except for what an acceptance of this case on this worker replaces. */
  ghost predicate FilesKept(kind: Kind, base: Trees, now: Trees, routes: map<Key, int>, applied: set<Key>,
                            worker: int, key: Key) {
    worker in base && worker in now ==>
      var exchanged := key in applied && key in routes && routes[key] == worker;
      && (!exchanged ==> SameFile(base[worker].markdown, now[worker].markdown, key))
      && (!exchanged || (kind != Quality && key.0 != "parsebench") ==>
          SameFile(base[worker].models, now[worker].models, key))
  }

  /** The composite `now` is `base` with exactly the applied cases exchanged, in its summaries and in its files. */
  ghost predicate Selected(kind: Kind, base: Trees, now: Trees, candidates: Trees, routes: map<Key, int>,
                           applied: set<Key>) {
    && SameFrame(base, now)
    && (forall worker, suite :: SlotSelected(base, now, candidates, routes, applied, worker, suite))
    && (forall key :: key in applied ==>
          CaseExchanged(base, candidates, routes, key) && FilesSelected(kind, now, candidates, routes, key))
    && (forall worker, key :: FilesKept(kind, base, now, routes, applied, worker, key))
  }

  predicate ModelOk(kind: Kind, plan: Plan) {
    match kind
    case Quality => plan.recoveryModel == QUALITY_MODEL
    case Alternate(model) => AlternateCandidates.IsAlternateModel(model) && plan.recoveryModel == model
  }

  predicate InputsOk(kind: Kind, baselineSources: seq<Source>, candidateSources: seq<Source>, plan: Plan,
                     comparison: Comparison) {
    && SourceMap(baselineSources).Keys == {0, 1, 2, 3} && SourceMap(candidateSources).Keys == {0, 1, 2, 3}
    && SummariesPresent(SourceMap(baselineSources))
    && plan.schema == STAGING_SCHEMA && ModelOk(kind, plan)
    && |Primaries(plan.routes)| == plan.inputCount
    && comparison.schema == COMPARISON_SCHEMA && POLICIES <= comparison.policy
    && |ByKey(comparison.accepted)| == comparison.acceptedCount
    && ByKey(comparison.accepted).Keys <= Primaries(plan.routes).Keys
    && (forall key :: key in ByKey(comparison.accepted) ==> QualitySelection.Validates(ByKey(comparison.accepted)[key]))
  }

  /** The composite after the given cases were exchanged in turn, unless one of them cannot be. */
  function RunOf(kind: Kind, base: Trees, candidates: Trees, routes: map<Key, int>, keys: seq<Key>): Option<Trees>
    requires forall key :: key in keys ==> key in routes
  {
    if keys == [] then Some(base)
    else
      var n := |keys| - 1;
      match RunOf(kind, base, candidates, routes, keys[..n])
      case None => None
      case Some(trees) => NextOf(kind, trees, candidates, routes, keys[n])
  }

  function NextOf(kind: Kind, trees: Trees, candidates: Trees, routes: map<Key, int>, key: Key): Option<Trees>
    requires key in routes
  {
    if StepOk(kind, trees, candidates, routes[key], key) then Some(Step(kind, trees, candidates, routes[key], key))
    else None
  }

  lemma {:induction false} StuckRun(kind: Kind, base: Trees, candidates: Trees, routes: map<Key, int>, keys: seq<Key>,
                                    k: nat)
    requires forall key :: key in keys ==> key in routes
    requires k <= |keys| && RunOf(kind, base, candidates, routes, keys[..k]).None?
    ensures RunOf(kind, base, candidates, routes, keys).None?
    decreases |keys| - k
  {
    hide NextOf;
    if k < |keys| {
      assert keys[..k + 1][..k] == keys[..k];
      StuckRun(kind, base, candidates, routes, keys, k + 1);
    } else {
      assert keys[..k] == keys;
    }
  }

  lemma RunNext(kind: Kind, base: Trees, candidates: Trees, routes: map<Key, int>, keys: seq<Key>, k: nat)
    requires forall key :: key in keys ==> key in routes
    requires k < |keys| && RunOf(kind, base, candidates, routes, keys[..k]).Some?
    ensures var trees, key := RunOf(kind, base, candidates, routes, keys[..k]).value, keys[k];
      && (RunOf(kind, base, candidates, routes, keys[..k + 1]).Some? <==>
            StepOk(kind, trees, candidates, routes[key], key))
      && (StepOk(kind, trees, candidates, routes[key], key) ==>
            RunOf(kind, base, candidates, routes, keys[..k + 1])
              == Some(Step(kind, trees, candidates, routes[key], key)))
  {
    hide StepOk, Step;
    assert keys[..k + 1][..k] == keys[..k];
  }

  class SelectedOutput {
    var trees: Trees
    var written: bool

    constructor ()
      ensures trees == map[] && !written
    {
      trees, written := map[], false;
    }

    method ApplyDecision(kind: Kind, candidates: Trees, worker: int, key: Key) returns (ok: bool)
      modifies this`trees
      ensures ok <==> StepOk(kind, old(trees), candidates, worker, key)
      ensures ok ==> trees == Step(kind, old(trees), candidates, worker, key)
    {
      hide Find, LookupOk;
      var k, other := Usable(trees, worker, key), Usable(candidates, worker, key);
      if k.None? || other.None? {
        return false;
      }
      var tree, source := trees[worker], candidates[worker];
      var candidate := CasesAt(candidates, worker, key.0)[other.value];
      if key !in source.markdown || source.markdown[key] != candidate.markdownSha {
        return false;
      }
      tree := tree.(markdown := tree.markdown[key := source.markdown[key]]);
      if NeedsModel(kind, key) {
        if key !in source.models {
          return false;
        }
        tree := tree.(models := tree.models[key := source.models[key]]);
      }
      var cases := CasesAt(trees, worker, key.0);
      cases := cases[k.value := Exchanged(cases[k.value], candidate)];
      tree := tree.(summaries := tree.summaries[key.0 := WithCaseList(tree.summaries[key.0], cases)]);
      trees := trees[worker := tree];
      return true;
    }

    /** The whole stage: the checks, then the accepted cases in the order of their keys. */
    method ApplyAccepted(kind: Kind, baselineSources: seq<Source>, candidateSources: seq<Source>, plan: Plan,
                         comparison: Comparison) returns (result: Result<nat, Error>)
      modifies this
      ensures result.Ok? <==>
        && !old(written) && InputsOk(kind, baselineSources, candidateSources, plan, comparison)
        && RunOf(kind, SourceMap(baselineSources), SourceMap(candidateSources), Primaries(plan.routes),
                 AcceptedKeys(comparison.accepted)).Some?
      ensures result.Ok? ==>
        && Some(trees) == RunOf(kind, SourceMap(baselineSources), SourceMap(candidateSources), Primaries(plan.routes),
                                AcceptedKeys(comparison.accepted))
        && result.value == comparison.acceptedCount
        && Selected(kind, SourceMap(baselineSources), trees, SourceMap(candidateSources), Primaries(plan.routes),
                    QualitySelection.DecisionKeys(comparison.accepted))
    {
      if written {
        return Err(OutputExists);
      }
      if !InputsOk(kind, baselineSources, candidateSources, plan, comparison) {
        return Err(BadInputs);
      }
      trees, written := SourceMap(baselineSources), true;
      PairOrder();
      var keys := SortedElements(PairLe, ByKey(comparison.accepted).Keys);
      DistinctSize(keys);
      hide *;
      result := RunDecisions(kind, SourceMap(candidateSources), Primaries(plan.routes), keys);
    }

    method RunDecisions(kind: Kind, candidates: Trees, routes: map<Key, int>, keys: seq<Key>)
      returns (result: Result<nat, Error>)
      requires Distinct(keys) && forall key :: key in keys ==> key in routes
      modifies this`trees
      ensures result.Ok? <==> RunOf(kind, old(trees), candidates, routes, keys).Some?
      ensures result.Ok? ==>
        && Some(trees) == RunOf(kind, old(trees), candidates, routes, keys)
        && result.value == |keys|
        && Selected(kind, old(trees), trees, candidates, routes, Elements(keys))
    {
      ghost var base := trees;
      assert RunOf(kind, base, candidates, routes, keys[..0]) == Some(base);
      hide *;
      for k := 0 to |keys|
        invariant RunOf(kind, base, candidates, routes, keys[..k]) == Some(trees)
      {
        var key := keys[k];
        RunNext(kind, base, candidates, routes, keys, k);
        var ok := ApplyDecision(kind, candidates, routes[key], key);
        if !ok {
          StuckRun(kind, base, candidates, routes, keys, k + 1);
          return Err(BadCase(key));
        }
      }
      assert keys[..|keys|] == keys;
      RunIsSelected(kind, base, candidates, routes, keys);
      return Ok(|keys|);
    }
  }

  /** The accepted cases in the order in which they are exchanged. */
  ghost function AcceptedKeys(accepted: seq<QualitySelection.Decision>): (keys: seq<Key>)
    ensures Distinct(keys) && Elements(keys) == QualitySelection.DecisionKeys(accepted)
    ensures forall key :: key in keys <==> key in QualitySelection.DecisionKeys(accepted)
  {
    PairOrder();
    Listing(PairLe, QualitySelection.DecisionKeys(accepted))
  }

  /** A run that comes to its end exchanged exactly the given cases. */
  lemma {:induction false} RunIsSelected(kind: Kind, base: Trees, candidates: Trees, routes: map<Key, int>,
                                         keys: seq<Key>)
    requires Distinct(keys) && forall key :: key in keys ==> key in routes
    requires RunOf(kind, base, candidates, routes, keys).Some?
    ensures Selected(kind, base, RunOf(kind, base, candidates, routes, keys).value, candidates, routes, Elements(keys))
    decreases |keys|
  {
    if keys == [] {
      StartSelected(kind, base, candidates, routes);
      assert Elements(keys) == {};
    } else {
      var n := |keys| - 1;
      var done := keys[..n];
      assert keys == done + [keys[n]] && keys[..n + 1] == keys;
      assert Elements(keys) == Elements(done) + {keys[n]} && keys[n] !in Elements(done);
      assert RunOf(kind, base, candidates, routes, done).Some?;
      RunNext(kind, base, candidates, routes, keys, n);
      assert Distinct(done);
      hide *;
      RunIsSelected(kind, base, candidates, routes, done);
      StepSelected(kind, base, RunOf(kind, base, candidates, routes, done).value, candidates, routes, Elements(done),
                   keys[n]);
    }
  }

  lemma StartSelected(kind: Kind, base: Trees, candidates: Trees, routes: map<Key, int>)
    ensures Selected(kind, base, base, candidates, routes, {})
  {
  }

  lemma StepFacts(kind: Kind, trees: Trees, candidates: Trees, worker: int, key: Key)
    requires StepOk(kind, trees, candidates, worker, key)
    ensures SameFrame(trees, Step(kind, trees, candidates, worker, key))
    ensures forall w, suite :: HasCases(trees, w, suite) ==>
      HasCases(Step(kind, trees, candidates, worker, key), w, suite)
      && CasesAt(Step(kind, trees, candidates, worker, key), w, suite)
         == if w == worker && suite == key.0 then StepCases(kind, trees, candidates, worker, key)
           else CasesAt(trees, w, suite)
    ensures forall w, suite :: HasCases(trees, w, suite) ==>
      SameCounters(trees[w].summaries[suite].runs[0],
                   Step(kind, trees, candidates, worker, key)[w].summaries[suite].runs[0])
  {
    hide Find, LookupOk;
    var summary := trees[worker].summaries[key.0];
    assert WithCaseList(summary, StepCases(kind, trees, candidates, worker, key)).runs[1..] == summary.runs[1..];
  }

  lemma StepSelected(kind: Kind, base: Trees, now: Trees, candidates: Trees, routes: map<Key, int>, applied: set<Key>,
                     key: Key)
    requires key in routes && key !in applied && StepOk(kind, now, candidates, routes[key], key)
    requires Selected(kind, base, now, candidates, routes, applied)
    ensures Selected(kind, base, Step(kind, now, candidates, routes[key], key), candidates, routes, applied + {key})
  {
    var later := Step(kind, now, candidates, routes[key], key);
    UsableFromBase(kind, base, now, candidates, routes, applied, key);
    hide SlotSelected, SameFrame, FilesSelected, FilesKept, CaseExchanged, Step, StepOk;
    StepFrame(kind, base, now, candidates, routes[key], key);
    forall other | other in applied + {key} ensures FilesSelected(kind, later, candidates, routes, other) {
      StepFile(kind, now, candidates, routes, key, other);
    }
    forall worker, other ensures FilesKept(kind, base, later, routes, applied + {key}, worker, other) {
      StepKeeps(kind, base, now, candidates, routes, applied, key, worker, other);
    }
    forall worker, suite ensures SlotSelected(base, later, candidates, routes, applied + {key}, worker, suite) {
      StepSlot(kind, base, now, candidates, routes, applied, key, worker, suite);
    }
  }

  /** A step writes the files of its own case and worker only. */
  lemma StepKeeps(kind: Kind, base: Trees, now: Trees, candidates: Trees, routes: map<Key, int>, applied: set<Key>,
                  key: Key, worker: int, other: Key)
    requires key in routes && StepOk(kind, now, candidates, routes[key], key)
    requires FilesKept(kind, base, now, routes, applied, worker, other) && base.Keys == now.Keys
    ensures FilesKept(kind, base, Step(kind, now, candidates, routes[key], key), routes, applied + {key}, worker, other)
  {
    hide Usable, StepCases, WithCaseList;
  }

  /** What can be exchanged now could be exchanged in the baseline. */
  lemma UsableFromBase(kind: Kind, base: Trees, now: Trees, candidates: Trees, routes: map<Key, int>,
                       applied: set<Key>, key: Key)
    requires key in routes && StepOk(kind, now, candidates, routes[key], key)
    requires SameFrame(base, now) && SlotSelected(base, now, candidates, routes, applied, routes[key], key.0)
    ensures CaseExchanged(base, candidates, routes, key)
  {
    var worker := routes[key];
    SameFrameCases(base, now, worker, key.0);
    assert Usable(now, worker, key).Some?;
    hide StepOk, SameFrame, Usable;
    UsableHasCases(now, worker, key);
    var before, after := CasesAt(base, worker, key.0), CasesAt(now, worker, key.0);
    forall k | 0 <= k < |before| ensures before[k].caseId == after[k].caseId && before[k].status == after[k].status {
      assert after[k] == Expected(candidates, routes, applied, worker, key.0, before[k]);
    }
    SameUsable(base, now, worker, key);
  }

  lemma UsableHasCases(trees: Trees, worker: int, key: Key)
    requires Usable(trees, worker, key).Some?
    ensures HasCases(trees, worker, key.0)
  {
  }

  /** Whether a case can be exchanged depends on frame, identifiers and statuses alone. */
  lemma SameUsable(base: Trees, now: Trees, worker: int, key: Key)
    requires SameFrame(base, now) && HasCases(base, worker, key.0) && HasCases(now, worker, key.0)
    requires SameIds(CasesAt(base, worker, key.0), CasesAt(now, worker, key.0))
    requires forall k :: 0 <= k < |CasesAt(base, worker, key.0)| ==>
      CasesAt(base, worker, key.0)[k].status == CasesAt(now, worker, key.0)[k].status
    ensures Usable(base, worker, key) == Usable(now, worker, key)
  {
    var before, after := base[worker].summaries[key.0], now[worker].summaries[key.0];
    assert Frame(before) == Frame(after);
    FrameShape(before, after);
    FindIgnoresContent(CasesAt(base, worker, key.0), CasesAt(now, worker, key.0), key.1);
    assert LookupOk(before) <==> LookupOk(after) by {
      hide Find;
    }
    hide LookupOk, Find, Frame;
  }

  lemma StepFrame(kind: Kind, base: Trees, now: Trees, candidates: Trees, worker: int, key: Key)
    requires StepOk(kind, now, candidates, worker, key) && SameFrame(base, now)
    ensures SameFrame(base, Step(kind, now, candidates, worker, key))
  {
    hide Step, StepOk, Frame;
    StepFacts(kind, now, candidates, worker, key);
  }

  lemma StepFile(kind: Kind, now: Trees, candidates: Trees, routes: map<Key, int>, key: Key, other: Key)
    requires key in routes && StepOk(kind, now, candidates, routes[key], key)
    requires other == key || FilesSelected(kind, now, candidates, routes, other)
    ensures FilesSelected(kind, Step(kind, now, candidates, routes[key], key), candidates, routes, other)
  {
    hide Find, LookupOk, StepCases, WithCaseList;
  }

  lemma StepSlot(kind: Kind, base: Trees, now: Trees, candidates: Trees, routes: map<Key, int>, applied: set<Key>,
                 key: Key, worker: int, suite: string)
    requires key in routes && key !in applied && StepOk(kind, now, candidates, routes[key], key)
    requires SameFrame(base, now) && SlotSelected(base, now, candidates, routes, applied, worker, suite)
    ensures SlotSelected(base, Step(kind, now, candidates, routes[key], key), candidates, routes, applied + {key},
                         worker, suite)
  {
    hide SameFrame, Step, StepOk, Usable, ListSelected, StepCases;
    StepFacts(kind, now, candidates, routes[key], key);
    if HasCases(base, worker, suite) {
      var before, cases := CasesAt(base, worker, suite), CasesAt(now, worker, suite);
      if worker == routes[key] && suite == key.0 {
        OwnList(kind, now, candidates, routes, applied, key, before);
      } else {
        OtherList(candidates, routes, applied, key, worker, suite, before, cases);
      }
    }
  }

  lemma OtherList(candidates: Trees, routes: map<Key, int>, applied: set<Key>, key: Key, worker: int, suite: string,
                  before: seq<Case>, cases: seq<Case>)
    requires key in routes && (worker != routes[key] || suite != key.0)
    requires ListSelected(candidates, routes, applied, worker, suite, before, cases)
    ensures ListSelected(candidates, routes, applied + {key}, worker, suite, before, cases)
  {
    hide Usable;
    forall k | 0 <= k < |before|
      ensures cases[k] == Expected(candidates, routes, applied + {key}, worker, suite, before[k])
    {
      assert (suite, before[k].caseId) == key ==> routes[key] != worker;
    }
  }

  lemma OwnList(kind: Kind, now: Trees, candidates: Trees, routes: map<Key, int>, applied: set<Key>, key: Key,
                before: seq<Case>)
    requires key in routes && key !in applied && StepOk(kind, now, candidates, routes[key], key)
    requires HasCases(now, routes[key], key.0)
    requires ListSelected(candidates, routes, applied, routes[key], key.0, before, CasesAt(now, routes[key], key.0))
    ensures ListSelected(candidates, routes, applied + {key}, routes[key], key.0, before,
                         StepCases(kind, now, candidates, routes[key], key))
  {
    var worker := routes[key];
    var cases, k := CasesAt(now, worker, key.0), Usable(now, worker, key).value;
    var after := StepCases(kind, now, candidates, worker, key);
    UniqueIds(now, worker, key);
    hide Usable, StepOk;
    forall i | 0 <= i < |before| ensures after[i] ==
      Expected(candidates, routes, applied + {key}, worker, key.0, before[i]) {
      assert before[i].caseId == cases[i].caseId;
    }
  }

  lemma UniqueIds(trees: Trees, worker: int, key: Key)
    requires Usable(trees, worker, key).Some?
    ensures var cases, k := CasesAt(trees, worker, key.0), Usable(trees, worker, key).value;
      forall i :: 0 <= i < |cases| && i != k ==> cases[i].caseId != key.1
  {
    assert LookupOk(trees[worker].summaries[key.0]);
  }
}
