/**
 * Selection over any number of stages: each compares official results, writes
 * the accepted artifacts into the composite, and hands the composite on.
 */
module SelectionStages {
  import opened Sequences
  import opened Sorting
  import opened RunSummaries
  import opened QualitySelection
  import opened AcceptedSelection

  // Official results are a function of what the official export reads of a case.

  /** Status and Markdown, and the model payload for the layout suite alone. */
  datatype Artifact =
    | Absent
    | Artifact(status: string, markdown: Option<string>, model: Option<string>)

  function Entry(files: map<FileKey, string>, key: FileKey): Option<string> {
    if key in files then Some(files[key]) else None
  }

  function ArtifactAt(trees: Trees, worker: int, key: FileKey): Artifact {
    var k := CaseIndex(trees, worker, key.0, key.1);
    if k.None? then Absent
    else
      Artifact(CasesAt(trees, worker, key.0)[k.value].status, Entry(trees[worker].markdown, key),
               if key.0 == LAYOUT_SUITE then Entry(trees[worker].models, key) else None)
  }

  /** The campaign: its cases, the worker each is assigned to, and the number of official failures of an artifact. */
  datatype Campaign = Campaign(cases: set<FileKey>, owner: FileKey -> int, official: (FileKey, Artifact) -> nat) {
    /** The official failures of a case in a composite. */
    ghost function Failures(trees: Trees): FileKey -> int {
      key => if key in cases then official(key, ArtifactAt(trees, owner(key), key)) else 0
    }

    /** The evaluation is that of the composite. */
    ghost predicate Measures(trees: Trees, evaluation: Evaluation) {
      forall key :: evaluation.Count(key) == Failures(trees)(key)
    }
  }

  /** One stage: candidates, the plan's workers, and the two evaluations it compares. */
  datatype Stage = Stage(kind: Kind, candidates: Trees, routes: map<FileKey, int>, baseline: Evaluation,
                         candidate: Evaluation)
  {
    ghost function Accepted(): seq<Decision> {
      Selection(baseline, candidate, Sort(RouteLe, baseline.routes)).accepted
    }

    /** The composite after the stage that applies the comparison's accepted list. */
    ghost function Result(now: Trees): Option<Trees> {
      var keys := AcceptedKeys(Accepted());
      if forall key :: key in keys ==> key in routes then RunOf(kind, now, candidates, routes, keys) else None
    }

    /** Both evaluations are of the composites at hand, and the plan routes cases to the workers that own them. */
    ghost predicate Honest(campaign: Campaign, now: Trees) {
      && campaign.Measures(now, baseline) && campaign.Measures(candidates, candidate)
      && forall key :: key in Chosen(baseline, candidate) ==> key in routes && routes[key] == campaign.owner(key)
    }
  }

  lemma AcceptedKeysAreChosen(stage: Stage)
    ensures Elements(AcceptedKeys(stage.Accepted())) == Chosen(stage.baseline, stage.candidate)
    ensures forall key :: key in AcceptedKeys(stage.Accepted()) <==> key in Chosen(stage.baseline, stage.candidate)
    ensures Distinct(AcceptedKeys(stage.Accepted()))
  {
  }

  // What one stage leaves of one case.

  /** Identifiers and statuses of a selected list are the baseline's. */
  lemma SelectedList(kind: Kind, base: Trees, now: Trees, candidates: Trees, routes: map<FileKey, int>,
                     applied: set<FileKey>, worker: int, suite: string)
    requires Selected(kind, base, now, candidates, routes, applied)
    ensures HasCases(base, worker, suite) <==> HasCases(now, worker, suite)
    ensures HasCases(base, worker, suite) ==>
      var before, after := CasesAt(base, worker, suite), CasesAt(now, worker, suite);
      && SameIds(before, after)
      && forall k :: 0 <= k < |before| ==> after[k].status == before[k].status
  {
    SameFrameCases(base, now, worker, suite);
    assert SlotSelected(base, now, candidates, routes, applied, worker, suite);
    hide SameFrame, Usable;
    if HasCases(base, worker, suite) {
      var before, after := CasesAt(base, worker, suite), CasesAt(now, worker, suite);
      forall k | 0 <= k < |before| ensures before[k].caseId == after[k].caseId && before[k].status == after[k].status {
        assert after[k] == AcceptedSelection.Expected(candidates, routes, applied, worker, suite, before[k]);
      }
    }
  }

  lemma SelectedIndex(kind: Kind, base: Trees, now: Trees, candidates: Trees, routes: map<FileKey, int>,
                      applied: set<FileKey>, worker: int, key: FileKey)
    requires Selected(kind, base, now, candidates, routes, applied)
    ensures CaseIndex(base, worker, key.0, key.1) == CaseIndex(now, worker, key.0, key.1)
    ensures var k := CaseIndex(base, worker, key.0, key.1);
      k.Some? ==> CasesAt(now, worker, key.0)[k.value].status == CasesAt(base, worker, key.0)[k.value].status
  {
    SelectedList(kind, base, now, candidates, routes, applied, worker, key.0);
    hide Selected;
    if HasCases(base, worker, key.0) {
      FindIgnoresContent(CasesAt(base, worker, key.0), CasesAt(now, worker, key.0), key.1);
    }
  }

  /** A case that can be exchanged is found by its identifier and completed. */
  lemma UsableIsCompleted(trees: Trees, worker: int, key: FileKey)
    requires Usable(trees, worker, key).Some?
    ensures CaseIndex(trees, worker, key.0, key.1) == Usable(trees, worker, key)
    ensures CasesAt(trees, worker, key.0)[Usable(trees, worker, key).value].status == "completed"
  {
    hide Find, LookupOk;
  }

  /** After a stage every accepted case has the candidate's artifact, and every other case the baseline's. */
  lemma SelectedArtifact(kind: Kind, base: Trees, now: Trees, candidates: Trees, routes: map<FileKey, int>,
                         applied: set<FileKey>, worker: int, key: FileKey)
    requires Selected(kind, base, now, candidates, routes, applied)
    requires key in applied ==> key in routes && routes[key] == worker
    ensures ArtifactAt(now, worker, key) == ArtifactAt(if key in applied then candidates else base, worker, key)
  {
    SelectedIndex(kind, base, now, candidates, routes, applied, worker, key);
    assert FilesKept(kind, base, now, routes, applied, worker, key);
    assert worker in base <==> worker in now by {
      hide SlotSelected, FilesSelected, FilesKept, CaseExchanged;
    }
    if key in applied {
      assert CaseExchanged(base, candidates, routes, key) && FilesSelected(kind, now, candidates, routes, key);
      hide Selected, Usable;
      UsableIsCompleted(base, worker, key);
      UsableIsCompleted(candidates, worker, key);
    } else {
      hide Selected, Usable, CaseExchanged, FilesSelected;
    }
  }

  /** The official counts of the composite a stage writes are those its comparison selected. */
  lemma StageYieldsSelectedCounts(campaign: Campaign, stage: Stage, now: Trees, key: FileKey)
    requires stage.Honest(campaign, now) && stage.Result(now).Some?
    ensures campaign.Failures(stage.Result(now).value)(key)
         == SelectedCount(stage.baseline, stage.candidate, Chosen(stage.baseline, stage.candidate), key)
  {
    var chosen := Chosen(stage.baseline, stage.candidate);
    var keys, later := AcceptedKeys(stage.Accepted()), stage.Result(now).value;
    AcceptedKeysAreChosen(stage);
    hide Chosen, Selected, ArtifactAt, AcceptedKeys;
    RunIsSelected(stage.kind, now, stage.candidates, stage.routes, keys);
    SelectedArtifact(stage.kind, now, later, stage.candidates, stage.routes, chosen, campaign.owner(key), key);
    assert stage.baseline.Count(key) == campaign.Failures(now)(key);
    assert stage.candidate.Count(key) == campaign.Failures(stage.candidates)(key);
  }

  // Any number of stages.

  ghost function After(stages: seq<Stage>, base: Trees): Option<Trees> {
    if stages == [] then Some(base)
    else
      match After(stages[..|stages| - 1], base)
      case None => None
      case Some(now) => stages[|stages| - 1].Result(now)
  }

  /** Every stage evaluates the composite it is given. */
  ghost predicate AllHonest(campaign: Campaign, stages: seq<Stage>, base: Trees) {
    stages != [] ==>
      var done := stages[..|stages| - 1];
      && AllHonest(campaign, done, base)
      && (After(done, base).Some? ==> stages[|stages| - 1].Honest(campaign, After(done, base).value))
  }

  ghost function AcceptedOver(stages: seq<Stage>): nat {
    if stages == [] then 0
    else
      var last := stages[|stages| - 1];
      AcceptedOver(stages[..|stages| - 1]) + |Chosen(last.baseline, last.candidate)|
  }

  lemma {:induction false} SumSame(f: FileKey -> int, g: FileKey -> int, universe: seq<FileKey>)
    requires forall key :: f(key) == g(key)
    ensures Sum(f, universe) == Sum(g, universe)
  {
    if universe != [] {
      SumSame(f, g, universe[..|universe| - 1]);
    }
  }

  /** One stage makes no case worse and lowers the total by at least the number it accepts. */
  lemma StageImproves(campaign: Campaign, stage: Stage, now: Trees, universe: seq<FileKey>)
    requires stage.Honest(campaign, now) && stage.Result(now).Some?
    requires Distinct(universe) && Elements(universe) == campaign.cases
    ensures forall key :: campaign.Failures(stage.Result(now).value)(key) <= campaign.Failures(now)(key)
    ensures Sum(campaign.Failures(stage.Result(now).value), universe) + |Chosen(stage.baseline, stage.candidate)|
         <= Sum(campaign.Failures(now), universe)
  {
    var chosen := Chosen(stage.baseline, stage.candidate);
    var later := stage.Result(now).value;
    assert campaign.Measures(now, stage.baseline);
    forall key
      ensures campaign.Failures(later)(key) == SelectedCounts(stage.baseline, stage.candidate, chosen)(key)
      ensures campaign.Failures(now)(key) == Counts(stage.baseline)(key)
      ensures campaign.Failures(later)(key) <= campaign.Failures(now)(key)
      ensures key in chosen ==> key in campaign.cases
    {
      StageYieldsSelectedCounts(campaign, stage, now, key);
      SelectedNeverWorse(stage.baseline, stage.candidate, key);
    }
    hide *;
    SumSame(campaign.Failures(later), SelectedCounts(stage.baseline, stage.candidate, chosen), universe);
    SumSame(campaign.Failures(now), Counts(stage.baseline), universe);
    SelectedTotalDrops(stage.baseline, stage.candidate, universe);
  }

  /** Over any number of stages no case gets worse, and every acceptance lowers the total by at least one. */
  lemma {:induction false} StagesOnlyImprove(campaign: Campaign, stages: seq<Stage>, base: Trees,
                                             universe: seq<FileKey>)
    requires AllHonest(campaign, stages, base) && After(stages, base).Some?
    requires Distinct(universe) && Elements(universe) == campaign.cases
    ensures forall key :: campaign.Failures(After(stages, base).value)(key) <= campaign.Failures(base)(key)
    ensures Sum(campaign.Failures(After(stages, base).value), universe) + AcceptedOver(stages)
         <= Sum(campaign.Failures(base), universe)
    decreases |stages|
  {
    if stages != [] {
      var done, last := stages[..|stages| - 1], stages[|stages| - 1];
      var now := After(done, base).value;
      assert last.Honest(campaign, now) && last.Result(now) == After(stages, base);
      assert AcceptedOver(stages) == AcceptedOver(done) + |Chosen(last.baseline, last.candidate)|;
      hide *;
      StagesOnlyImprove(campaign, done, base, universe);
      StageImproves(campaign, last, now, universe);
    }
  }
}
