/**
 * What the recovery scripts read and write: run summaries of workers, the
 * artifacts beside them, and the lookup of a case in a summary.
 */
module RunSummaries {
  import opened Sequences

  const SUITES := ["parsebench", "omnidocbench", "olmocr-bench"]

  predicate IsSlot(worker: int, suite: string) {
    (worker, suite) in SLOTS
  }

  lemma SlotMeaning(worker: int, suite: string)
    ensures IsSlot(worker, suite) <==> 0 <= worker < 4 && IsSuite(suite)
  {
    SlotsCoverWorkersAndSuites();
  }

  predicate IsSuite(suite: string) {
    suite in SUITES
  }

  const STAGING_SCHEMA := "folynta.public-core-selective-recovery-staging.v1"
  const EXPECTED_CANDIDATE_ID := "mineru-3.4.4-vlm"
  const EXPECTED_ARTIFACT_SHA256 := "1611a8892cc0e7e287d31c4a1b5af87652f0f6e4a3f80276b92b4c71f982de84"

  datatype Case = Case(
    caseId: string,
    status: string,
    markdownSha: string,
    markdownCharacters: int,
    artifactSha: string,
    error: string)

  datatype Run = Run(repeatIndex: int, cases: seq<Case>, completed: int, failed: int)

  datatype Summary = Summary(
    candidateId: string,
    artifactManifestSha: string,
    groundTruthMounted: bool,
    evidenceClass: string,
    runs: seq<Run>)

  /** Suite and case of an artifact. */
  type FileKey = (string, string)

  /** One worker's result tree; a file is represented by the hash of its content. */
  datatype WorkerTree = WorkerTree(
    summaries: map<string, Summary>,
    markdown: map<FileKey, string>,
    models: map<FileKey, string>)

  type Trees = map<int, WorkerTree>

  datatype Source = Source(worker: int, tree: WorkerTree)

  function SourceMap(sources: seq<Source>): Trees {
    if sources == [] then map[]
    else SourceMap(sources[..|sources| - 1])[sources[|sources| - 1].worker := sources[|sources| - 1].tree]
  }

  /** A worker's tree is that of its last source. */
  lemma {:induction false} SourceMapHoldsLast(sources: seq<Source>, worker: int, tree: WorkerTree)
    ensures worker in SourceMap(sources) && SourceMap(sources)[worker] == tree <==>
      exists i :: 0 <= i < |sources| && sources[i] == Source(worker, tree)
                  && forall j :: i < j < |sources| ==> sources[j].worker != worker
  {
    if sources != [] {
      var n := |sources| - 1;
      SourceMapHoldsLast(sources[..n], worker, tree);
      assert forall i :: 0 <= i < n ==> sources[..n][i] == sources[i];
      if sources[n].worker == worker {
        assert sources[n] == Source(worker, sources[n].tree);
      }
    }
  }

  predicate FourWorkers(sources: seq<Source>) {
    SourceMap(sources).Keys == {0, 1, 2, 3} && |SourceMap(sources)| == |sources|
  }

  /** All twelve run summaries are there. */
  predicate SummariesPresent(trees: Trees) {
    forall worker, k :: 0 <= worker < 4 && 0 <= k < |SUITES| ==>
      worker in trees && SUITES[k] in trees[worker].summaries
  }

  /** Exactly one run, and it is repeat 1. */
  predicate SingleRepeat(summary: Summary) {
    |summary.runs| == 1 && summary.runs[0].repeatIndex == 1
  }

  /** A by-identifier lookup is possible: repeat 1 alone and no case twice. */
  predicate LookupOk(summary: Summary) {
    && SingleRepeat(summary)
    && forall i, j :: 0 <= i < j < |summary.runs[0].cases| ==>
       summary.runs[0].cases[i].caseId != summary.runs[0].cases[j].caseId
  }

  predicate HasCases(trees: Trees, worker: int, suite: string) {
    worker in trees && suite in trees[worker].summaries && trees[worker].summaries[suite].runs != []
  }

  function CasesAt(trees: Trees, worker: int, suite: string): seq<Case>
    requires HasCases(trees, worker, suite)
  {
    trees[worker].summaries[suite].runs[0].cases
  }

  function CountStatus(cases: seq<Case>, status: string): nat {
    if cases == [] then 0
    else CountStatus(cases[..|cases| - 1], status) + if cases[|cases| - 1].status == status then 1 else 0
  }

  /** The positions of the cases with a status. */
  ghost function WithStatus(cases: seq<Case>, status: string): set<nat> {
    set k: nat | k < |cases| && cases[k].status == status
  }

  lemma {:induction false} CountIsNumberOfPositions(cases: seq<Case>, status: string)
    ensures CountStatus(cases, status) == |WithStatus(cases, status)|
  {
    if cases == [] {
      assert WithStatus(cases, status) == {};
    } else {
      var n := |cases| - 1;
      CountIsNumberOfPositions(cases[..n], status);
      assert WithStatus(cases, status)
          == WithStatus(cases[..n], status) + if cases[n].status == status then {n} else {};
    }
  }

  /** The counters of the run are the numbers of its completed and of its failed cases. */
  ghost predicate CountersRight(summary: Summary) {
    && summary.runs != []
    && summary.runs[0].completed == |WithStatus(summary.runs[0].cases, "completed")|
    && summary.runs[0].failed == |WithStatus(summary.runs[0].cases, "failed")|
  }

  lemma RecountedIsRight(summary: Summary, cases: seq<Case>)
    requires summary.runs != []
    ensures CountersRight(WithCases(summary, cases))
  {
    CountIsNumberOfPositions(cases, "completed");
    CountIsNumberOfPositions(cases, "failed");
  }

  /** The position a by-identifier lookup finds: the last one, as in a dictionary comprehension. */
  function Find(cases: seq<Case>, caseId: string): (k: Option<nat>)
    ensures k.Some? ==> k.value < |cases| && cases[k.value].caseId == caseId
    ensures k.Some? ==> forall i :: k.value < i < |cases| ==> cases[i].caseId != caseId
    ensures k.None? ==> forall i :: 0 <= i < |cases| ==> cases[i].caseId != caseId
  {
    if cases == [] then None
    else if cases[|cases| - 1].caseId == caseId then Some(|cases| - 1)
    else Find(cases[..|cases| - 1], caseId)
  }

  /** The counters of a summary after its case list changed. */
  function WithCases(summary: Summary, cases: seq<Case>): Summary
    requires summary.runs != []
  {
    var run := Run(summary.runs[0].repeatIndex, cases, CountStatus(cases, "completed"), CountStatus(cases, "failed"));
    summary.(runs := [run] + summary.runs[1..])
  }

  /** Two lists name the same cases at the same positions. */
  ghost predicate SameIds(cases: seq<Case>, others: seq<Case>) {
    |cases| == |others| && forall i :: 0 <= i < |cases| ==> cases[i].caseId == others[i].caseId
  }

  /** The position of a case in a worker's list for a suite. */
  function CaseIndex(trees: Trees, worker: int, suite: string, caseId: string): (k: Option<nat>)
    ensures k.Some? ==>
      && HasCases(trees, worker, suite) && k.value < |CasesAt(trees, worker, suite)|
      && CasesAt(trees, worker, suite)[k.value].caseId == caseId
  {
    if !HasCases(trees, worker, suite) then None else Find(CasesAt(trees, worker, suite), caseId)
  }

  lemma {:induction false} FindIgnoresContent(cases: seq<Case>, others: seq<Case>, caseId: string)
    requires SameIds(cases, others)
    ensures Find(cases, caseId) == Find(others, caseId)
  {
    if cases != [] {
      FindIgnoresContent(cases[..|cases| - 1], others[..|others| - 1], caseId);
    }
  }

  /** Replacing one case moves the status counts by that case alone. */
  lemma {:induction false} CountAfterUpdate(cases: seq<Case>, k: nat, updated: Case, status: string)
    requires k < |cases|
    ensures CountStatus(cases[k := updated], status)
         == CountStatus(cases, status)
            - (if cases[k].status == status then 1 else 0) + (if updated.status == status then 1 else 0)
    decreases |cases|
  {
    var n := |cases| - 1;
    var after := cases[k := updated];
    if k == n {
      assert after[..n] == cases[..n];
    } else {
      assert after[..n] == cases[..n][k := updated];
      CountAfterUpdate(cases[..n], k, updated, status);
    }
  }

  /** Everything of a summary except its case list and counters. */
  ghost function Frame(summary: Summary): Summary {
    if summary.runs == [] then summary
    else summary.(runs := [summary.runs[0].(cases := [], completed := 0, failed := 0)] + summary.runs[1..])
  }

  /** The same workers with the same suites; only case lists, counters and artifacts may differ. */
  ghost predicate SameFrame(trees: Trees, others: Trees) {
    && trees.Keys == others.Keys
    && (forall worker :: worker in trees ==> trees[worker].summaries.Keys == others[worker].summaries.Keys)
    && (forall worker, suite :: worker in trees && suite in trees[worker].summaries ==>
          Frame(trees[worker].summaries[suite]) == Frame(others[worker].summaries[suite]))
  }

  lemma SameFrameCompose(trees: Trees, middle: Trees, others: Trees)
    requires SameFrame(trees, middle) && SameFrame(middle, others)
    ensures SameFrame(trees, others)
  {
    hide Frame;
  }

  lemma SameFrameBack(trees: Trees, others: Trees)
    requires SameFrame(trees, others)
    ensures SameFrame(others, trees)
  {
    hide Frame;
  }

  lemma SameFrameCases(trees: Trees, others: Trees, worker: int, suite: string)
    requires SameFrame(trees, others)
    ensures HasCases(trees, worker, suite) <==> HasCases(others, worker, suite)
    ensures HasCases(trees, worker, suite) ==>
      (SingleRepeat(trees[worker].summaries[suite]) <==> SingleRepeat(others[worker].summaries[suite]))
  {
    if worker in trees && suite in trees[worker].summaries {
      assert Frame(trees[worker].summaries[suite]) == Frame(others[worker].summaries[suite]);
      FrameShape(trees[worker].summaries[suite], others[worker].summaries[suite]);
    }
  }

  lemma FrameShape(summary: Summary, other: Summary)
    requires Frame(summary) == Frame(other)
    ensures |summary.runs| == |other.runs|
    ensures summary.runs != [] ==> summary.runs[0].repeatIndex == other.runs[0].repeatIndex
    ensures summary.candidateId == other.candidateId && summary.artifactManifestSha == other.artifactManifestSha
  {
    if summary.runs != [] {
      assert Frame(summary).runs[0].repeatIndex == summary.runs[0].repeatIndex;
      assert |Frame(summary).runs| == |summary.runs|;
    }
    if other.runs != [] {
      assert Frame(other).runs[0].repeatIndex == other.runs[0].repeatIndex;
      assert |Frame(other).runs| == |other.runs|;
    }
  }

  lemma FrameOfUpdate(summary: Summary, cases: seq<Case>)
    requires summary.runs != []
    ensures Frame(WithCases(summary, cases)) == Frame(summary)
  {
    hide CountStatus;
    var updated := WithCases(summary, cases);
    assert updated.runs[1..] == summary.runs[1..];
  }

  /** A file is absent from both or has the same content in both. */
  ghost predicate SameFile(files: map<FileKey, string>, others: map<FileKey, string>, key: FileKey) {
    (key in files <==> key in others) && (key in files ==> files[key] == others[key])
  }

  /** Both files of a case are the same in two trees. */
  ghost predicate SameFiles(tree: WorkerTree, other: WorkerTree, key: FileKey) {
    SameFile(tree.markdown, other.markdown, key) && SameFile(tree.models, other.models, key)
  }

  // Completed cases over all workers and suites.

  type Slot = (int, string)

  function SlotList(a: string, b: string, c: string): seq<Slot> {
    [(0, a), (0, b), (0, c), (1, a), (1, b), (1, c), (2, a), (2, b), (2, c), (3, a), (3, b), (3, c)]
  }

  const SLOTS := SlotList(SUITES[0], SUITES[1], SUITES[2])

  lemma SlotListCovers(a: string, b: string, c: string)
    requires a != b && a != c && b != c
    ensures var slots := SlotList(a, b, c);
      && (forall i, j :: 0 <= i < j < |slots| ==> slots[i] != slots[j])
      && (forall worker, suite :: (worker, suite) in slots <==> 0 <= worker < 4 && suite in [a, b, c])
  {
  }

  lemma SlotsCoverWorkersAndSuites()
    ensures forall i, j :: 0 <= i < j < |SLOTS| ==> SLOTS[i] != SLOTS[j]
    ensures forall worker, suite :: (worker, suite) in SLOTS <==> 0 <= worker < 4 && IsSuite(suite)
  {
    hide SlotList;
    DifferentSuites();
    assert SUITES == [SUITES[0], SUITES[1], SUITES[2]];
    SlotListCovers(SUITES[0], SUITES[1], SUITES[2]);
  }

  lemma DifferentSuites()
    ensures SUITES[0] != SUITES[1] && SUITES[0] != SUITES[2] && SUITES[1] != SUITES[2]
  {
    assert SUITES[0][0] == 'p' && SUITES[1][0] == 'o' && SUITES[2][0] == 'o';
    assert SUITES[1][1] == 'm' && SUITES[2][1] == 'l';
  }

  function CompletedAt(trees: Trees, slot: Slot): nat {
    if HasCases(trees, slot.0, slot.1) then CountStatus(CasesAt(trees, slot.0, slot.1), "completed") else 0
  }

  lemma CompletedAtSlot(trees: Trees, worker: int, suite: string)
    requires HasCases(trees, worker, suite)
    ensures CompletedAt(trees, (worker, suite)) == CountStatus(CasesAt(trees, worker, suite), "completed")
  {
  }

  function CompletedIn(trees: Trees, slots: seq<Slot>): nat {
    if slots == [] then 0 else CompletedIn(trees, slots[..|slots| - 1]) + CompletedAt(trees, slots[|slots| - 1])
  }

  lemma {:induction false} CompletedElsewhere(trees: Trees, others: Trees, slots: seq<Slot>)
    requires forall slot :: slot in slots ==> CompletedAt(others, slot) == CompletedAt(trees, slot)
    ensures CompletedIn(others, slots) == CompletedIn(trees, slots)
  {
    if slots != [] {
      hide CompletedAt;
      CompletedElsewhere(trees, others, slots[..|slots| - 1]);
    }
  }

  lemma {:induction false} CompletedChange(trees: Trees, others: Trees, slots: seq<Slot>, k: nat, delta: nat)
    requires k < |slots| && forall i, j :: 0 <= i < j < |slots| ==> slots[i] != slots[j]
    requires CompletedAt(others, slots[k]) == CompletedAt(trees, slots[k]) + delta
    requires forall slot :: slot in slots && slot != slots[k] ==> CompletedAt(others, slot) == CompletedAt(trees, slot)
    ensures CompletedIn(others, slots) == CompletedIn(trees, slots) + delta
  {
    hide CompletedAt;
    var n := |slots| - 1;
    if k == n {
      CompletedElsewhere(trees, others, slots[..n]);
    } else {
      assert slots[..n][k] == slots[k];
      CompletedChange(trees, others, slots[..n], k, delta);
    }
  }

  /** When one slot gains `delta` completed cases and no other slot changes, so does the whole. */
  lemma TotalChange(trees: Trees, others: Trees, slot: Slot, delta: nat)
    requires IsSlot(slot.0, slot.1)
    requires CompletedAt(others, slot) == CompletedAt(trees, slot) + delta
    requires forall other: Slot :: IsSlot(other.0, other.1) && other != slot ==>
      CompletedAt(others, other) == CompletedAt(trees, other)
    ensures CompletedIn(others, SLOTS) == CompletedIn(trees, SLOTS) + delta
  {
    hide CompletedAt, CompletedIn;
    SlotsCoverWorkersAndSuites();
    assert forall i :: 0 <= i < |SLOTS| ==> IsSlot(SLOTS[i].0, SLOTS[i].1);
    var k :| 0 <= k < |SLOTS| && SLOTS[k] == slot;
    CompletedChange(trees, others, SLOTS, k, delta);
  }
}
