/**
 * The alternate-model overlay: routed cases of the composite are replaced by
 * what another model produced, with a Paddle layout response as fallback.
 */
module AlternateCandidates {
  import opened Sequences
  import opened Sorting
  import opened RunSummaries

  const PADDLE := "paddleocr-vl-1.6"
  const DEEPSEEK := "deepseek-ocr-2"

  predicate IsAlternateModel(model: string) {
    model == PADDLE || model == DEEPSEEK
  }

  function CandidateId(model: string): string {
    if model == PADDLE then "paddleocr-vl-1.6" else "deepseek-ocr-2-3b-transformers"
  }

  function ArtifactManifest(model: string): string {
    if model == PADDLE then "sha256:40ca2a90af83f79a9adf2d5ddb7e32187e6956e45e5730119595be7305e06a53"
    else "sha256:77137d41428555c636b04ec5a1617e72c7e3e98afd81502b5c8659f6430421bc"
  }

  // Paddle layout responses.

  /** One parsed block; content is stripped and its label (`kind`) normalised. */
  datatype RawBlock = RawBlock(content: string, kind: string, order: Option<real>, corner: Option<(real, real)>)

  datatype TextBlock = TextBlock(kind: string, content: string)

  /** A stored response; `blocks` is absent when it is not a single page with a parse list. */
  datatype Response = Response(sha: string, error: string, blocks: Option<seq<Option<RawBlock>>>)

  const MARGINAL_LABELS := {"number", "footnote", "header", "header_image", "footer", "footer_image"}

  datatype Keyed = Keyed(unordered: bool, major: real, minor: real, index: nat, block: TextBlock)

  predicate KeyLe(a: Keyed, b: Keyed) {
    if a.unordered != b.unordered then b.unordered
    else if a.major != b.major then a.major < b.major
    else if a.minor != b.minor then a.minor < b.minor
    else a.index <= b.index
  }

  function KeyOf(index: nat, raw: RawBlock): Keyed {
    var x := if raw.corner.Some? then raw.corner.value.0 else 0.0;
    var y := if raw.corner.Some? then raw.corner.value.1 else index as real;
    var block := TextBlock(raw.kind, raw.content);
    if raw.order.None? then Keyed(true, y, x, index, block) else Keyed(false, raw.order.value, 0.0, index, block)
  }

  function KeyedBlocks(raws: seq<Option<RawBlock>>): seq<Keyed> {
    if raws == [] then []
    else
      var n := |raws| - 1;
      KeyedBlocks(raws[..n])
      + if raws[n].None? || raws[n].value.content == "" then [] else [KeyOf(n, raws[n].value)]
  }

  function TextBlocks(raws: seq<Option<RawBlock>>): seq<TextBlock> {
    var sorted := Sort(KeyLe, KeyedBlocks(raws));
    seq(|sorted|, k requires 0 <= k < |sorted| => sorted[k].block)
  }

  /** Where a block stands from the left and the top; one without a box stands at its position in the list. */
  function Corner(raw: RawBlock, position: nat): (real, real) {
    if raw.corner.Some? then raw.corner.value else (0.0, position as real)
  }

  /** The block at `a` is read before the block at `b`: placed ones by place, then the others from top to bottom. */
  ghost predicate ReadsFirst(raws: seq<Option<RawBlock>>, a: nat, b: nat)
    requires a < |raws| && b < |raws| && raws[a].Some? && raws[b].Some?
  {
    var x, y := raws[a].value, raws[b].value;
    if x.order.Some? && y.order.Some? then
      x.order.value < y.order.value || (x.order.value == y.order.value && a <= b)
    else if x.order.Some? || y.order.Some? then x.order.Some?
    else
      var (left, top), (left', top') := Corner(x, a), Corner(y, b);
      top < top' || (top == top' && (left < left' || (left == left' && a <= b)))
  }

  /** The text blocks are the blocks with content, each read before those that follow it. */
  ghost predicate ReadInOrder(raws: seq<Option<RawBlock>>, blocks: seq<TextBlock>, positions: seq<nat>) {
    && |positions| == |blocks| && Distinct(positions)
    && (forall k: nat :: k in positions <==> k < |raws| && raws[k].Some? && raws[k].value.content != "")
    && (forall i :: 0 <= i < |blocks| ==>
          && positions[i] < |raws| && raws[positions[i]].Some?
          && blocks[i] == TextBlock(raws[positions[i]].value.kind, raws[positions[i]].value.content))
    && (forall i, j :: 0 <= i < j < |blocks| ==> ReadsFirst(raws, positions[i], positions[j]))
  }

  lemma TextBlocksAreInOrder(raws: seq<Option<RawBlock>>) returns (positions: seq<nat>)
    ensures ReadInOrder(raws, TextBlocks(raws), positions)
  {
    var keyed := KeyedBlocks(raws);
    var sorted := Sort(KeyLe, keyed);
    KeyedAre(raws);
    KeyOrder();
    SortPermutes(KeyLe, keyed);
    SortSorts(KeyLe, keyed);
    positions := seq(|sorted|, i requires 0 <= i < |sorted| => sorted[i].index);
    TextBlocksOf(raws);
    hide *;
    KeysInOrder(raws, TextBlocks(raws), keyed, sorted, positions);
  }

  lemma TextBlocksOf(raws: seq<Option<RawBlock>>)
    ensures var sorted := Sort(KeyLe, KeyedBlocks(raws));
      && |TextBlocks(raws)| == |sorted| && forall i :: 0 <= i < |sorted| ==> TextBlocks(raws)[i] == sorted[i].block
  {
    hide Sort, KeyedBlocks;
  }

  lemma KeyOrder()
    ensures TotalPreorder(KeyLe)
  {
  }

  /** One key for each block with content, in order of position. */
  lemma {:induction false} KeyedAre(raws: seq<Option<RawBlock>>)
    ensures forall key :: key in KeyedBlocks(raws) <==>
      && key.index < |raws| && raws[key.index].Some? && raws[key.index].value.content != ""
      && key == KeyOf(key.index, raws[key.index].value)
    ensures forall i, j :: 0 <= i < j < |KeyedBlocks(raws)| ==> KeyedBlocks(raws)[i].index < KeyedBlocks(raws)[j].index
  {
    if raws != [] {
      var n := |raws| - 1;
      KeyedAre(raws[..n]);
      var before, last := KeyedBlocks(raws[..n]), raws[n];
      forall i | 0 <= i < |before| ensures before[i].index < n {
        assert before[i] in before;
      }
    }
  }

  lemma KeysInOrder(raws: seq<Option<RawBlock>>, blocks: seq<TextBlock>, keyed: seq<Keyed>, sorted: seq<Keyed>,
                    positions: seq<nat>)
    requires |blocks| == |sorted| && forall i :: 0 <= i < |sorted| ==> blocks[i] == sorted[i].block
    requires forall key :: key in keyed <==>
      && key.index < |raws| && raws[key.index].Some? && raws[key.index].value.content != ""
      && key == KeyOf(key.index, raws[key.index].value)
    requires forall i, j :: 0 <= i < j < |keyed| ==> keyed[i].index < keyed[j].index
    requires multiset(sorted) == multiset(keyed) && SortedBy(KeyLe, sorted)
    requires |positions| == |sorted| && forall i :: 0 <= i < |sorted| ==> positions[i] == sorted[i].index
    ensures ReadInOrder(raws, blocks, positions)
  {
    SameMembers(sorted, keyed);
    forall i | 0 <= i < |sorted|
      ensures sorted[i].index < |raws| && raws[sorted[i].index].Some?
      ensures sorted[i] == KeyOf(sorted[i].index, raws[sorted[i].index].value)
    {
      assert sorted[i] in sorted;
    }
    DistinctKeys(keyed, sorted);
    forall k: nat | k < |raws| && raws[k].Some? && raws[k].value.content != "" ensures k in positions {
      var key := KeyOf(k, raws[k].value);
      assert key in keyed;
      var i :| 0 <= i < |sorted| && sorted[i] == key;
      assert positions[i] == k;
    }
    forall k: nat | k in positions ensures k < |raws| && raws[k].Some? && raws[k].value.content != "" {
      var i :| 0 <= i < |positions| && positions[i] == k;
      assert sorted[i] in sorted;
    }
  }

  lemma DistinctKeys(keyed: seq<Keyed>, sorted: seq<Keyed>)
    requires forall i, j :: 0 <= i < j < |keyed| ==> keyed[i].index < keyed[j].index
    requires multiset(sorted) == multiset(keyed)
    ensures forall i, j :: 0 <= i < j < |sorted| ==> sorted[i].index != sorted[j].index
  {
    DistinctFromMultiset(keyed, sorted);
    SameMembers(sorted, keyed);
    forall i, j | 0 <= i < j < |sorted| ensures sorted[i].index != sorted[j].index {
      assert sorted[i] in keyed && sorted[j] in keyed;
      var a :| 0 <= a < |keyed| && keyed[a] == sorted[i];
      var b :| 0 <= b < |keyed| && keyed[b] == sorted[j];
      assert a != b;
    }
  }

  /** Nothing with text is lost: the list is empty only when every block is blank. */
  lemma {:induction false} NoTextBlocks(raws: seq<Option<RawBlock>>)
    ensures TextBlocks(raws) == [] <==> forall k :: 0 <= k < |raws| ==> raws[k].None? || raws[k].value.content == ""
  {
    SortPermutes(KeyLe, KeyedBlocks(raws));
    NoKeyedBlocks(raws);
  }

  lemma {:induction false} NoKeyedBlocks(raws: seq<Option<RawBlock>>)
    ensures KeyedBlocks(raws) == [] <==> forall k :: 0 <= k < |raws| ==> raws[k].None? || raws[k].value.content == ""
  {
    if raws != [] {
      NoKeyedBlocks(raws[..|raws| - 1]);
    }
  }

  /** The blocks outside the margins, in order. */
  function Selected(blocks: seq<TextBlock>): seq<TextBlock> {
    if blocks == [] then []
    else
      var n := |blocks| - 1;
      Selected(blocks[..n]) + if blocks[n].kind in MARGINAL_LABELS then [] else [blocks[n]]
  }

  lemma {:induction false} SelectedBlocks(blocks: seq<TextBlock>)
    ensures forall block :: block in Selected(blocks) <==> block in blocks && block.kind !in MARGINAL_LABELS
    ensures Selected(blocks) == [] <==> forall k :: 0 <= k < |blocks| ==> blocks[k].kind in MARGINAL_LABELS
  {
    if blocks != [] {
      var n := |blocks| - 1;
      SelectedBlocks(blocks[..n]);
      assert blocks == blocks[..n] + [blocks[n]];
      var marginal := blocks[n].kind in MARGINAL_LABELS;
      assert Selected(blocks) == [] <==> Selected(blocks[..n]) == [] && marginal;
    }
  }

  // The stage's inputs.

  /** Hashes of what the stage writes itself; a missing one means the content cannot be built. */
  datatype Adapters = Adapters(
    layoutModel: Response -> Option<string>,
    markdownModel: string -> Option<string>,
    blocksMarkdown: seq<TextBlock> -> string,
    blocksSize: seq<TextBlock> -> int,
    emptyModel: string)

  datatype RecoveryTree = RecoveryTree(tree: WorkerTree, responses: map<FileKey, Response>)

  type Recovery = map<int, RecoveryTree>

  datatype Setting = Setting(model: string, operational: bool, recovery: Recovery, fallback: Option<Recovery>,
                             adapters: Adapters)

  datatype Route = Route(suite: string, caseId: string, primary: int, recoveryWorker: int)

  function Key(route: Route): FileKey {
    (route.suite, route.caseId)
  }

  predicate ResultValid(summary: Summary, model: string) {
    && summary.candidateId == CandidateId(model)
    && summary.artifactManifestSha == ArtifactManifest(model)
    && !summary.groundTruthMounted
    && LookupOk(summary)
  }

  predicate ResultsValid(recovery: Recovery, model: string) {
    forall worker, k :: 0 <= worker < 4 && worker in recovery && 0 <= k < |SUITES| ==>
      SUITES[k] in recovery[worker].tree.summaries ==> ResultValid(recovery[worker].tree.summaries[SUITES[k]], model)
  }

  predicate ShardEvidence(recovery: Recovery) {
    forall worker, k :: 0 <= worker < 4 && worker in recovery && 0 <= k < |SUITES| ==>
      SUITES[k] in recovery[worker].tree.summaries ==>
      recovery[worker].tree.summaries[SUITES[k]].evidenceClass == "public-core-shard"
  }

  predicate RecoveryValid(setting: Setting) {
    && ResultsValid(setting.recovery, setting.model) && ShardEvidence(setting.recovery)
    && (setting.fallback.Some? ==> ResultsValid(setting.fallback.value, PADDLE))
  }

  /** The recorded result of a routed case on its recovery worker. */
  function ResultOf(recovery: Recovery, route: Route): Option<Case> {
    if !(0 <= route.recoveryWorker < 4) || !IsSuite(route.suite) || route.recoveryWorker !in recovery
       || route.suite !in recovery[route.recoveryWorker].tree.summaries
       || recovery[route.recoveryWorker].tree.summaries[route.suite].runs == []
    then None
    else
      var cases := recovery[route.recoveryWorker].tree.summaries[route.suite].runs[0].cases;
      var k := Find(cases, route.caseId);
      if k.None? then None else Some(cases[k.value])
  }

  /** The failed empty-Markdown Paddle response bound to a routed case, with its text blocks readable. */
  function BoundFallback(setting: Setting, route: Route): (response: Option<Response>)
    ensures response.Some? ==> response.value.blocks.Some?
  {
    if setting.fallback.None? then None
    else
      var fallback := ResultOf(setting.fallback.value, route);
      if fallback.None? || fallback.value.status != "failed" || fallback.value.error != "empty_markdown" then None
      else
        var responses := setting.fallback.value[route.recoveryWorker].responses;
        if Key(route) !in responses || responses[Key(route)].sha != fallback.value.artifactSha ||
          responses[Key(route)].blocks.None?
        then None else Some(responses[Key(route)])
  }

  /** The layout payload of a response; a failed response has none unless its empty Markdown is permitted. */
  function LayoutModel(setting: Setting, response: Response, permitEmptyMarkdown: bool): Option<string> {
    if response.error == "" || (permitEmptyMarkdown && response.error == "empty_markdown")
    then setting.adapters.layoutModel(response) else None
  }

  // The verdict on one route.

  datatype Strategy =
    | NotRequired
    | PaddleLayout
    | DeepseekMarkdownPaddleLayout
    | DeepseekFullPageNoLayout
    | RetainLayout
    | DeepseekFullPage
    | SemanticEmptyPage
    | IgnoredLabelText
    | PaddleTextDeepseekEmpty

  datatype Verdict =
    | Applied(markdownSha: string, markdownCharacters: int, modelSha: Option<string>, strategy: Strategy,
              emptyResolved: bool)
    | InferenceFailed

  function WithModel(result: Case, modelSha: Option<string>, strategy: Strategy): Option<Verdict> {
    if modelSha.None? then None
    else Some(Applied(result.markdownSha, result.markdownCharacters, modelSha, strategy, false))
  }

  /** A completed recovery result; `None` when a binding is broken. */
  function CompletedVerdict(setting: Setting, candidate: WorkerTree, route: Route, result: Case): Option<Verdict>
    requires route.recoveryWorker in setting.recovery
  {
    var source := setting.recovery[route.recoveryWorker];
    if Key(route) !in source.tree.markdown || source.tree.markdown[Key(route)] != result.markdownSha then None
    else if setting.model == PADDLE then
      if Key(route) !in source.responses || source.responses[Key(route)].sha != result.artifactSha then None
      else WithModel(result, LayoutModel(setting, source.responses[Key(route)], false), PaddleLayout)
    else if route.suite == "parsebench" then
      if setting.operational then
        var response := BoundFallback(setting, route);
        if response.None? then None
        else if TextBlocks(response.value.blocks.value) != [] then
          WithModel(result, LayoutModel(setting, response.value, true), DeepseekMarkdownPaddleLayout)
        else WithModel(result, setting.adapters.markdownModel(result.markdownSha), DeepseekFullPageNoLayout)
      else
        WithModel(result, if Key(route) in candidate.models then Some(candidate.models[Key(route)])
                  else None, RetainLayout)
    else if setting.operational then
      WithModel(result, setting.adapters.markdownModel(result.markdownSha), DeepseekFullPage)
    else
      Some(Applied(result.markdownSha, result.markdownCharacters, None, NotRequired, false))
  }

  /** Both models found no Markdown: the page is resolved from the Paddle text that was ignored, or as empty. */
  function EmptyVerdict(setting: Setting, route: Route): Option<Verdict> {
    var response := BoundFallback(setting, route);
    if response.None? then None
    else
      var blocks := TextBlocks(response.value.blocks.value);
      var selected := if route.suite == "parsebench" then Selected(blocks) else blocks;
      var markdownSha, size := setting.adapters.blocksMarkdown(selected), setting.adapters.blocksSize(selected);
      if selected == [] then
        Some(Applied(markdownSha, size, Some(setting.adapters.emptyModel), SemanticEmptyPage, true))
      else
        var modelSha := if route.suite == "parsebench" then LayoutModel(setting, response.value, true)
                        else setting.adapters.markdownModel(markdownSha);
        if modelSha.None? then None
        else Some(Applied(markdownSha, size, modelSha,
                          if route.suite == "parsebench" then IgnoredLabelText else PaddleTextDeepseekEmpty, true))
  }

  predicate ResolvesEmpty(setting: Setting, result: Case) {
    setting.operational && setting.model == DEEPSEEK && result.error == "empty_markdown" && setting.fallback.Some?
  }

  function TargetOf(trees: Trees, route: Route): Option<nat> {
    CaseIndex(trees, route.primary, route.suite, route.caseId)
  }

  function ExpectedStatus(setting: Setting): string {
    if setting.operational then "failed" else "completed"
  }

  /** The target is a case of the composite in the state this mode overlays. */
  predicate TargetOk(setting: Setting, trees: Trees, route: Route) {
    var k := TargetOf(trees, route);
    && k.Some?
    && var summary := trees[route.primary].summaries[route.suite];
       && summary.candidateId == EXPECTED_CANDIDATE_ID && summary.artifactManifestSha == EXPECTED_ARTIFACT_SHA256
       && LookupOk(summary)
       && summary.runs[0].cases[k.value].status == ExpectedStatus(setting)
  }

  function Decide(setting: Setting, trees: Trees, route: Route): Option<Verdict> {
    var result := ResultOf(setting.recovery, route);
    if route.primary == route.recoveryWorker || result.None? || !TargetOk(setting, trees, route) then None
    else if result.value.status == "completed" then CompletedVerdict(setting, trees[route.primary], route, result.value)
    else if result.value.status == "failed" then
      if ResolvesEmpty(setting, result.value) then EmptyVerdict(setting, route) else Some(InferenceFailed)
    else None
  }

  /**
   * What is decided for a known result and a target in the right state: completed results are judged by their
   * bindings, empty results of the second model in operational mode by the fallback, other failures count as such.
   */
  lemma DecisionByResult(setting: Setting, trees: Trees, route: Route, result: Case)
    requires ResultOf(setting.recovery, route) == Some(result) && TargetOk(setting, trees, route)
    ensures route.primary == route.recoveryWorker ==> Decide(setting, trees, route).None?
    ensures route.primary != route.recoveryWorker && result.status == "completed" ==>
      Decide(setting, trees, route) == CompletedVerdict(setting, trees[route.primary], route, result)
    ensures route.primary != route.recoveryWorker && result.status == "failed" ==>
      Decide(setting, trees, route)
        == if setting.operational && setting.model == DEEPSEEK && setting.fallback.Some? &&
              result.error == "empty_markdown"
           then EmptyVerdict(setting, route) else Some(InferenceFailed)
    ensures result.status !in {"completed", "failed"} ==> Decide(setting, trees, route).None?
  {
    hide CompletedVerdict, EmptyVerdict, TargetOk;
    assert "failed"[0] != "completed"[0];
  }

  /** In operational mode nothing is applied without a model payload. */
  lemma OperationalNeedsModel(setting: Setting, trees: Trees, route: Route)
    requires IsAlternateModel(setting.model)
    ensures var verdict := Decide(setting, trees, route);
      verdict.Some? && verdict.value.Applied? ==>
      && (setting.operational ==> verdict.value.modelSha.Some?)
      && (verdict.value.modelSha.None? <==> verdict.value.strategy == NotRequired)
      && (verdict.value.strategy == NotRequired ==>
            !setting.operational && setting.model == DEEPSEEK && route.suite != "parsebench")
      && (verdict.value.emptyResolved ==>
          setting.operational && setting.model == DEEPSEEK && BoundFallback(setting, route).Some?)
  {
    hide TextBlocks, BoundFallback, TargetOk, ResultOf;
  }

  /** An empty page is declared only when no ignored text outside the margins was found. */
  lemma EmptyPageHasNoText(setting: Setting, route: Route)
    requires EmptyVerdict(setting, route).Some? && EmptyVerdict(setting, route).value.strategy == SemanticEmptyPage
    ensures var blocks := TextBlocks(BoundFallback(setting, route).value.blocks.value);
      if route.suite == "parsebench" then forall k :: 0 <= k < |blocks| ==> blocks[k].kind in MARGINAL_LABELS
        else blocks == []
  {
    hide TextBlocks, BoundFallback;
    SelectedBlocks(TextBlocks(BoundFallback(setting, route).value.blocks.value));
  }

  // One route.

  function Overlaid(original: Case, verdict: Verdict): Case
    requires verdict.Applied?
  {
    original.(status := "completed", markdownSha := verdict.markdownSha,
              markdownCharacters := verdict.markdownCharacters)
  }

  function StepCases(trees: Trees, route: Route, verdict: Verdict): seq<Case>
    requires TargetOf(trees, route).Some?
  {
    var cases, k := CasesAt(trees, route.primary, route.suite), TargetOf(trees, route).value;
    if verdict.Applied? then cases[k := Overlaid(cases[k], verdict)] else cases
  }

  function StepTree(tree: WorkerTree, route: Route, verdict: Verdict, cases: seq<Case>): WorkerTree
    requires route.suite in tree.summaries && tree.summaries[route.suite].runs != []
  {
    var summaries := tree.summaries[route.suite := WithCases(tree.summaries[route.suite], cases)];
    if verdict.InferenceFailed? then tree.(summaries := summaries)
    else
      WorkerTree(summaries, tree.markdown[Key(route) := verdict.markdownSha],
                 if verdict.modelSha.Some? then tree.models[Key(route) := verdict.modelSha.value] else tree.models)
  }

  function Step(trees: Trees, route: Route, verdict: Verdict): Trees
    requires TargetOf(trees, route).Some?
  {
    trees[route.primary := StepTree(trees[route.primary], route, verdict, StepCases(trees, route, verdict))]
  }

  datatype Receipt = Receipt(attempted: nat, applied: nat, inferenceFailed: nat, emptyResolved: nat)

  function Counted(receipt: Receipt, verdict: Verdict): Receipt {
    Receipt(receipt.attempted + 1,
            receipt.applied + if verdict.Applied? then 1 else 0,
            receipt.inferenceFailed + if verdict.Applied? then 0 else 1,
            receipt.emptyResolved + if verdict.Applied? && verdict.emptyResolved then 1 else 0)
  }

  /** The composite and the counters after some routes, unless one of them broke a binding. */
  datatype Progress = Progress(trees: Trees, receipt: Receipt)

  function RunOf(setting: Setting, base: Trees, routes: seq<Route>): Option<Progress> {
    if routes == [] then Some(Progress(base, Receipt(0, 0, 0, 0)))
    else
      var n := |routes| - 1;
      match RunOf(setting, base, routes[..n])
      case None => None
      case Some(progress) => NextOf(setting, progress, routes[n])
  }

  function NextOf(setting: Setting, progress: Progress, route: Route): Option<Progress> {
    var verdict := Decide(setting, progress.trees, route);
    if verdict.None? || TargetOf(progress.trees, route).None? then None
    else Some(Progress(Step(progress.trees, route, verdict.value), Counted(progress.receipt, verdict.value)))
  }

  lemma {:induction false} StuckRun(setting: Setting, base: Trees, routes: seq<Route>, k: nat)
    requires k <= |routes| && RunOf(setting, base, routes[..k]).None?
    ensures RunOf(setting, base, routes).None?
    decreases |routes| - k
  {
    hide NextOf;
    if k < |routes| {
      assert routes[..k + 1][..k] == routes[..k];
      StuckRun(setting, base, routes, k + 1);
    } else {
      assert routes[..k] == routes;
    }
  }

  lemma RunNext(setting: Setting, base: Trees, routes: seq<Route>, k: nat)
    requires k < |routes| && RunOf(setting, base, routes[..k]).Some?
    ensures RunOf(setting, base, routes[..k + 1])
         == NextOf(setting, RunOf(setting, base, routes[..k]).value, routes[k])
  {
    hide NextOf;
    assert routes[..k + 1][..k] == routes[..k];
  }

  lemma NextMeaning(setting: Setting, base: Trees, routes: seq<Route>, k: nat, now: Trees, receipt: Receipt,
                    verdict: Option<Verdict>)
    requires k < |routes| && RunOf(setting, base, routes[..k]) == Some(Progress(now, receipt))
    requires verdict == Decide(setting, now, routes[k])
    ensures verdict.None? ==> RunOf(setting, base, routes[..k + 1]).None?
    ensures verdict.Some? && TargetOf(now, routes[k]).Some? ==>
      RunOf(setting, base, routes[..k + 1])
        == Some(Progress(Step(now, routes[k], verdict.value), Counted(receipt, verdict.value)))
  {
    RunNext(setting, base, routes, k);
    hide Decide, TargetOf, Step, Counted, RunOf;
  }

  datatype Error = OutputExists | BadInputs | BadRoute(route: Route)

  datatype Plan = Plan(schema: string, recoveryModel: string, differentWorkerOnly: bool, inputCount: int,
                       routes: seq<Route>)

  predicate InputsOk(setting: Setting, baselineSources: seq<Source>, plan: Plan) {
    && FourWorkers(baselineSources) && SummariesPresent(SourceMap(baselineSources))
    && IsAlternateModel(setting.model)
    && plan.schema == STAGING_SCHEMA && plan.recoveryModel == setting.model && plan.differentWorkerOnly
    && plan.inputCount == |plan.routes|
    && RecoveryValid(setting)
  }

  class Candidate {
    var trees: Trees
    var written: bool

    constructor ()
      ensures trees == map[] && !written
    {
      trees, written := map[], false;
    }

    /** The whole stage: the checks, then every route in turn. */
    method ApplyAlternateCandidates(setting: Setting, baselineSources: seq<Source>, plan: Plan)
        returns (result: Result<Receipt, Error>)
      modifies this
      ensures result.Ok? <==>
        && !old(written) && InputsOk(setting, baselineSources, plan)
        && RunOf(setting, SourceMap(baselineSources), plan.routes).Some?
      ensures result.Ok? ==>
        && Some(Progress(trees, result.value)) == RunOf(setting, SourceMap(baselineSources), plan.routes)
        && result.value.attempted == |plan.routes| == result.value.applied + result.value.inferenceFailed
        && result.value.emptyResolved <= result.value.applied
        && Overlay(setting, SourceMap(baselineSources), trees, plan.routes, result.value.applied)
    {
      if written {
        return Err(OutputExists);
      }
      if !InputsOk(setting, baselineSources, plan) {
        return Err(BadInputs);
      }
      trees, written := SourceMap(baselineSources), true;
      result := RunRoutes(setting, plan.routes);
    }

    method RunRoutes(setting: Setting, routes: seq<Route>) returns (result: Result<Receipt, Error>)
      requires IsAlternateModel(setting.model) && trees.Keys == {0, 1, 2, 3}
      modifies this
      ensures result.Ok? <==> RunOf(setting, old(trees), routes).Some?
      ensures result.Ok? ==>
        && Some(Progress(trees, result.value)) == RunOf(setting, old(trees), routes)
        && result.value.attempted == |routes| == result.value.applied + result.value.inferenceFailed
        && result.value.emptyResolved <= result.value.applied
        && Overlay(setting, old(trees), trees, routes, result.value.applied)
    {
      ghost var base := trees;
      var applied, inferenceFailed, emptyResolved := 0, 0, 0;
      assert RunOf(setting, base, routes[..0]) == Some(Progress(trees, Receipt(0, 0, 0, 0)));
      hide *;
      for k := 0 to |routes|
        invariant RunOf(setting, base, routes[..k])
               == Some(Progress(trees, Receipt(k, applied, inferenceFailed, emptyResolved)))
      {
        ghost var now, receipt := trees, Receipt(k, applied, inferenceFailed, emptyResolved);
        var verdict := ApplyRoute(setting, routes[k]);
        NextMeaning(setting, base, routes, k, now, receipt, verdict);
        if verdict.None? {
          StuckRun(setting, base, routes, k + 1);
          return Err(BadRoute(routes[k]));
        }
        applied, inferenceFailed, emptyResolved := Bump(verdict.value, receipt, applied, inferenceFailed,
                                                        emptyResolved);
      }
      assert routes[..|routes|] == routes;
      RunIsOverlay(setting, base, routes);
      return Ok(Receipt(|routes|, applied, inferenceFailed, emptyResolved));
    }

    /** The counters after one more route. */
    method Bump(verdict: Verdict, ghost receipt: Receipt, applied: nat, inferenceFailed: nat, emptyResolved: nat)
        returns (moreApplied: nat, moreFailed: nat, moreResolved: nat)
      requires receipt == Receipt(receipt.attempted, applied, inferenceFailed, emptyResolved)
      ensures Counted(receipt, verdict) == Receipt(receipt.attempted + 1, moreApplied, moreFailed, moreResolved)
    {
      moreApplied, moreFailed, moreResolved := applied, inferenceFailed, emptyResolved;
      if verdict.Applied? {
        moreApplied := applied + 1;
        if verdict.emptyResolved {
          moreResolved := emptyResolved + 1;
        }
      } else {
        moreFailed := inferenceFailed + 1;
      }
    }

    /** The branches for one route; each broken binding stops the stage. */
    method ApplyRoute(setting: Setting, route: Route) returns (verdict: Option<Verdict>)
      modifies this
      ensures verdict == Decide(setting, old(trees), route)
      ensures verdict.Some? ==> TargetOf(old(trees), route).Some? && trees == Step(old(trees), route, verdict.value)
    {
      hide TextBlocks, Find, CountStatus, SingleRepeat;
      if route.primary == route.recoveryWorker {
        return None;
      }
      var result := ResultOf(setting.recovery, route);
      if result.None? || !TargetOk(setting, trees, route) {
        return None;
      }
      var k := TargetOf(trees, route).value;
      var cases := CasesAt(trees, route.primary, route.suite);
      var tree := trees[route.primary];
      if result.value.status == "completed" {
        verdict := DecideCompleted(setting, tree, route, result.value);
      } else if result.value.status == "failed" && ResolvesEmpty(setting, result.value) {
        verdict := DecideEmpty(setting, route);
      } else if result.value.status == "failed" {
        verdict := Some(InferenceFailed);
      } else {
        return None;
      }
      if verdict.None? {
        return None;
      }
      if verdict.value.Applied? {
        tree := tree.(markdown := tree.markdown[Key(route) := verdict.value.markdownSha]);
        if verdict.value.modelSha.Some? {
          tree := tree.(models := tree.models[Key(route) := verdict.value.modelSha.value]);
        }
        cases := cases[k := Overlaid(cases[k], verdict.value)];
      }
      tree := tree.(summaries := tree.summaries[route.suite := WithCases(tree.summaries[route.suite], cases)]);
      trees := trees[route.primary := tree];
    }
  }

  /** The Markdown beside a recovery result is there and has the recorded hash. */
  predicate MarkdownBound(source: RecoveryTree, route: Route, result: Case) {
    Key(route) in source.tree.markdown && source.tree.markdown[Key(route)] == result.markdownSha
  }

  /** The response beside a Paddle result is there, has the recorded hash and did not fail. */
  predicate ResponseBound(source: RecoveryTree, route: Route, result: Case) {
    && Key(route) in source.responses && source.responses[Key(route)].sha == result.artifactSha
    && source.responses[Key(route)].error == ""
  }

  /**
   * Where the model payload of a completed result comes from: the Paddle response; in operational mode, for the
   * layout suite the fallback response if it has any text, and otherwise the Markdown itself.
   */
  ghost predicate CompletedModel(setting: Setting, route: Route, result: Case, modelSha: Option<string>)
    requires route.recoveryWorker in setting.recovery
  {
    var responses := setting.recovery[route.recoveryWorker].responses;
    && (setting.model == PADDLE ==>
          Key(route) in responses && modelSha == setting.adapters.layoutModel(responses[Key(route)]))
    && (setting.model != PADDLE && setting.operational && route.suite != "parsebench" ==>
          modelSha == setting.adapters.markdownModel(result.markdownSha))
    && (setting.model != PADDLE && setting.operational && route.suite == "parsebench" ==>
          var response := BoundFallback(setting, route);
          && response.Some?
          && modelSha == if HasText(response.value) then setting.adapters.layoutModel(response.value)
                         else setting.adapters.markdownModel(result.markdownSha))
    && (setting.model != PADDLE && !setting.operational && route.suite != "parsebench" ==> modelSha.None?)
  }

  /** Some block of the response has content. */
  ghost predicate HasText(response: Response) {
    && response.blocks.Some?
    && exists k :: 0 <= k < |response.blocks.value|
         && response.blocks.value[k].Some? && response.blocks.value[k].value.content != ""
  }

  /**
   * A completed result is only ever applied, with the Markdown its record names; a model payload comes from the bound
   * response for Paddle, is the composite's own where the layout is retained, and is always there in operational mode.
   */
  method DecideCompleted(setting: Setting, candidate: WorkerTree, route: Route, result: Case)
      returns (verdict: Option<Verdict>)
    requires route.recoveryWorker in setting.recovery
    ensures verdict == CompletedVerdict(setting, candidate, route, result)
    ensures verdict.Some? ==>
      && MarkdownBound(setting.recovery[route.recoveryWorker], route, result)
      && verdict.value.Applied? && !verdict.value.emptyResolved
      && verdict.value.markdownSha == result.markdownSha
      && verdict.value.markdownCharacters == result.markdownCharacters
      && (setting.operational || setting.model == PADDLE ==> verdict.value.modelSha.Some?)
      && (setting.model == PADDLE ==> ResponseBound(setting.recovery[route.recoveryWorker], route, result))
      && (setting.operational && setting.model != PADDLE && route.suite == "parsebench" ==>
            BoundFallback(setting, route).Some?)
      && (!setting.operational && setting.model != PADDLE && verdict.value.modelSha.Some? ==>
            Key(route) in candidate.models && verdict.value.modelSha.value == candidate.models[Key(route)])
    ensures verdict.Some? ==> CompletedModel(setting, route, result, verdict.value.modelSha)
    ensures !setting.operational && setting.model != PADDLE ==>
      (verdict.Some? <==>
         && MarkdownBound(setting.recovery[route.recoveryWorker], route, result)
         && (route.suite == "parsebench" ==> Key(route) in candidate.models))
  {
    hide TextBlocks, BoundFallback;
    var source := setting.recovery[route.recoveryWorker];
    if Key(route) !in source.tree.markdown || source.tree.markdown[Key(route)] != result.markdownSha {
      return None;
    }
    var modelSha: Option<string> := None;
    var strategy := NotRequired;
    if setting.model == PADDLE {
      if Key(route) !in source.responses || source.responses[Key(route)].sha != result.artifactSha {
        return None;
      }
      modelSha, strategy := LayoutModel(setting, source.responses[Key(route)], false), PaddleLayout;
    } else if route.suite == "parsebench" {
      if setting.operational {
        var response := BoundFallback(setting, route);
        if response.None? {
          return None;
        }
        NoTextBlocks(response.value.blocks.value);
        if TextBlocks(response.value.blocks.value) != [] {
          modelSha, strategy := LayoutModel(setting, response.value, true), DeepseekMarkdownPaddleLayout;
        } else {
          modelSha, strategy := setting.adapters.markdownModel(result.markdownSha), DeepseekFullPageNoLayout;
        }
      } else {
        modelSha := if Key(route) in candidate.models then Some(candidate.models[Key(route)]) else None;
        strategy := RetainLayout;
      }
    } else if setting.operational {
      modelSha, strategy := setting.adapters.markdownModel(result.markdownSha), DeepseekFullPage;
    }
    if modelSha.None? && strategy != NotRequired {
      return None;
    }
    return Some(Applied(result.markdownSha, result.markdownCharacters, modelSha, strategy, false));
  }

  /** The text read from a bound fallback: for the layout suite the blocks outside the margins, otherwise all. */
  function Readable(setting: Setting, route: Route): (blocks: seq<TextBlock>)
    requires BoundFallback(setting, route).Some?
    ensures forall block :: block in blocks <==>
      && block in TextBlocks(BoundFallback(setting, route).value.blocks.value)
      && (route.suite == "parsebench" ==> block.kind !in MARGINAL_LABELS)
  {
    var blocks := TextBlocks(BoundFallback(setting, route).value.blocks.value);
    hide TextBlocks, BoundFallback;
    SelectedBlocks(blocks);
    if route.suite == "parsebench" then Selected(blocks) else blocks
  }

  /**
   * An empty result is resolved only through a bound fallback, with a model payload and the fallback's readable text;
   * an empty page is declared exactly when there is none, and then always.
   */
  method DecideEmpty(setting: Setting, route: Route) returns (verdict: Option<Verdict>)
    ensures verdict == EmptyVerdict(setting, route)
    ensures verdict.Some? ==>
      && BoundFallback(setting, route).Some?
      && verdict.value.Applied? && verdict.value.emptyResolved && verdict.value.modelSha.Some?
      && verdict.value.markdownSha == setting.adapters.blocksMarkdown(Readable(setting, route))
      && verdict.value.markdownCharacters == setting.adapters.blocksSize(Readable(setting, route))
      && (verdict.value.strategy == SemanticEmptyPage <==> Readable(setting, route) == [])
      && verdict.value.modelSha
         == (if Readable(setting, route) == [] then Some(setting.adapters.emptyModel)
             else if route.suite == "parsebench" then
               setting.adapters.layoutModel(BoundFallback(setting, route).value)
             else setting.adapters.markdownModel(verdict.value.markdownSha))
      && (verdict.value.strategy == IgnoredLabelText <==>
            Readable(setting, route) != [] && route.suite == "parsebench")
    ensures BoundFallback(setting, route).Some? && Readable(setting, route) == [] ==> verdict.Some?
    ensures verdict.None? && BoundFallback(setting, route).Some? && route.suite == "parsebench" ==>
      LayoutModel(setting, BoundFallback(setting, route).value, true).None?
  {
    hide TextBlocks, BoundFallback;
    var response := BoundFallback(setting, route);
    if response.None? {
      return None;
    }
    var blocks := TextBlocks(response.value.blocks.value);
    var selected := if route.suite == "parsebench" then Selected(blocks) else blocks;
    var markdownSha := setting.adapters.blocksMarkdown(selected);
    var modelSha: Option<string>;
    var strategy: Strategy;
    if selected == [] {
      modelSha, strategy := Some(setting.adapters.emptyModel), SemanticEmptyPage;
    } else if route.suite == "parsebench" {
      modelSha, strategy := LayoutModel(setting, response.value, true), IgnoredLabelText;
    } else {
      modelSha, strategy := setting.adapters.markdownModel(markdownSha), PaddleTextDeepseekEmpty;
    }
    if modelSha.None? {
      return None;
    }
    return Some(Applied(markdownSha, setting.adapters.blocksSize(selected), modelSha, strategy, true));
  }

  // What a route may change.

  ghost predicate RoutedHere(routes: seq<Route>, worker: int, suite: string, caseId: string) {
    exists i :: 0 <= i < |routes| && routes[i].primary == worker && routes[i].suite == suite &&
      routes[i].caseId == caseId
  }

  /** The case is as it was, or it was routed in the expected state and its files match its record. */
  ghost predicate CaseKept(setting: Setting, routes: seq<Route>, worker: int, suite: string, tree: WorkerTree,
                           before: Case, after: Case) {
    after == before || Replaced(setting, routes, worker, suite, tree, before, after)
  }

  ghost predicate Replaced(setting: Setting, routes: seq<Route>, worker: int, suite: string, tree: WorkerTree,
                           before: Case, after: Case) {
    && RoutedHere(routes, worker, suite, before.caseId)
    && before.status == ExpectedStatus(setting)
    && after == before.(status := "completed", markdownSha := after.markdownSha,
                        markdownCharacters := after.markdownCharacters)
    && (suite, before.caseId) in tree.markdown && tree.markdown[(suite, before.caseId)] == after.markdownSha
    && (setting.operational ==> (suite, before.caseId) in tree.models)
  }

  ghost predicate ListKept(setting: Setting, routes: seq<Route>, worker: int, suite: string, tree: WorkerTree,
                           before: seq<Case>, after: seq<Case>) {
    && SameIds(before, after)
    && forall k :: 0 <= k < |before| ==> CaseKept(setting, routes, worker, suite, tree, before[k], after[k])
  }

  ghost predicate SlotKept(setting: Setting, base: Trees, now: Trees, routes: seq<Route>, worker: int, suite: string) {
    HasCases(base, worker, suite) ==>
      HasCases(now, worker, suite)
      && ListKept(setting, routes, worker, suite, now[worker], CasesAt(base, worker, suite),
                  CasesAt(now, worker, suite))
  }

  /** What a run over `routes` with `applied` replacements may have done to the baseline. */
  ghost predicate Overlay(setting: Setting, base: Trees, now: Trees, routes: seq<Route>, applied: nat) {
    && SameFrame(base, now)
    && CompletedIn(now, SLOTS) == CompletedIn(base, SLOTS) + (if setting.operational then applied else 0)
    && (forall worker, suite :: SlotKept(setting, base, now, routes, worker, suite))
    && (forall worker, key :: FilesKept(setting, base, now, routes, worker, key))
  }

  /** Whether a result can replace its target at all: it completed, or its emptiness can be resolved. */
  predicate MayApply(setting: Setting, route: Route) {
    var result := ResultOf(setting.recovery, route);
    && result.Some?
    && (result.value.status == "completed"
        || (result.value.status == "failed" && ResolvesEmpty(setting, result.value)))
  }

  ghost predicate Writes(setting: Setting, route: Route, worker: int, key: FileKey) {
    route.primary == worker && Key(route) == key && MayApply(setting, route)
  }

  /** No file changes but those of routed cases with a usable result; without Paddle layouts no model changes at all. */
  ghost predicate FilesKept(setting: Setting, base: Trees, now: Trees, routes: seq<Route>, worker: int,
                            key: FileKey) {
    worker in base && worker in now ==>
      var written := exists route :: route in routes && Writes(setting, route, worker, key);
      && (!written ==> SameFiles(base[worker], now[worker], key))
      && (!setting.operational && setting.model != PADDLE ==> SameFile(base[worker].models, now[worker].models, key))
  }

  /** A step writes the files of its own case and worker only. */
  lemma StepKeeps(setting: Setting, base: Trees, now: Trees, done: seq<Route>, next: Route, verdict: Verdict,
                  worker: int, key: FileKey)
    requires Decide(setting, now, next) == Some(verdict) && TargetOf(now, next).Some?
    requires FilesKept(setting, base, now, done, worker, key) && base.Keys == now.Keys
    ensures FilesKept(setting, base, Step(now, next, verdict), done + [next], worker, key)
  {
    hide *;
    StepFacts(now, next, verdict);
    if worker in now {
      WritesMeaning(setting, now, next, verdict);
      StepKeepsFiles(setting, now, next, verdict, worker, key);
      FilesKeptAlong(setting, base, now, Step(now, next, verdict), done, next, worker, key);
    } else {
      NothingKept(setting, base, now, Step(now, next, verdict), done + [next], worker, key);
    }
  }

  lemma NothingKept(setting: Setting, base: Trees, now: Trees, later: Trees, routes: seq<Route>, worker: int,
                    key: FileKey)
    requires worker !in now && base.Keys == now.Keys
    ensures FilesKept(setting, base, later, routes, worker, key)
  {
  }

  lemma StepKeepsFiles(setting: Setting, now: Trees, next: Route, verdict: Verdict, worker: int, key: FileKey)
    requires TargetOf(now, next).Some? && worker in now && (verdict.Applied? ==> MayApply(setting, next))
    requires verdict.Applied? && verdict.modelSha.Some? && !setting.operational && setting.model != PADDLE ==>
      && Key(next) in now[next.primary].models
      && verdict.modelSha.value == now[next.primary].models[Key(next)]
    ensures var later := Step(now, next, verdict);
      && worker in later
      && (!Writes(setting, next, worker, key) ==> SameFiles(now[worker], later[worker], key))
      && (!setting.operational && setting.model != PADDLE ==> SameFile(now[worker].models, later[worker].models, key))
  {
    hide TargetOf, MayApply, StepCases, CountStatus, Find;
  }

  lemma FilesKeptAlong(setting: Setting, base: Trees, now: Trees, later: Trees, done: seq<Route>, next: Route,
                       worker: int, key: FileKey)
    requires FilesKept(setting, base, now, done, worker, key) && worker in now && worker in later
    requires !Writes(setting, next, worker, key) ==> SameFiles(now[worker], later[worker], key)
    requires !setting.operational && setting.model != PADDLE ==>
      SameFile(now[worker].models, later[worker].models, key)
    ensures FilesKept(setting, base, later, done + [next], worker, key)
  {
    hide Writes;
    assert next in done + [next];
    forall route | route in done ensures route in done + [next] {
    }
  }

  lemma WritesMeaning(setting: Setting, now: Trees, next: Route, verdict: Verdict)
    requires Decide(setting, now, next) == Some(verdict) && TargetOf(now, next).Some?
    ensures verdict.Applied? ==> MayApply(setting, next)
    ensures verdict.Applied? && verdict.modelSha.Some? && !setting.operational && setting.model != PADDLE ==>
      && Key(next) in now[next.primary].models
      && verdict.modelSha.value == now[next.primary].models[Key(next)]
  {
    hide TextBlocks, BoundFallback, TargetOk, ResultOf, TargetOf;
  }

  lemma RoutedLonger(routes: seq<Route>, next: Route, worker: int, suite: string, caseId: string)
    requires RoutedHere(routes, worker, suite, caseId)
    ensures RoutedHere(routes + [next], worker, suite, caseId)
  {
    var i :| 0 <= i < |routes| && routes[i].primary == worker && routes[i].suite == suite && routes[i].caseId == caseId;
    assert (routes + [next])[i] == routes[i];
  }

  /** A case survives a step that does not write its own files. */
  lemma CaseKeptElsewhere(setting: Setting, routes: seq<Route>, next: Route, worker: int, suite: string,
                          tree: WorkerTree, later: WorkerTree, before: Case, after: Case)
    requires CaseKept(setting, routes, worker, suite, tree, before, after)
    requires var key := (suite, before.caseId);
      && (key in tree.markdown ==> key in later.markdown && later.markdown[key] == tree.markdown[key])
      && (key in tree.models ==> key in later.models)
    ensures CaseKept(setting, routes + [next], worker, suite, later, before, after)
  {
    hide RoutedHere;
    if after != before {
      RoutedLonger(routes, next, worker, suite, before.caseId);
    }
  }

  lemma CaseReplaced(setting: Setting, routes: seq<Route>, next: Route, tree: WorkerTree, later: WorkerTree,
                     before: Case, now: Case, verdict: Verdict)
    requires CaseKept(setting, routes, next.primary, next.suite, tree, before, now)
    requires verdict.Applied? && (setting.operational ==> verdict.modelSha.Some?)
    requires now.caseId == next.caseId && now.status == ExpectedStatus(setting)
    requires Key(next) in later.markdown && later.markdown[Key(next)] == verdict.markdownSha
    requires verdict.modelSha.Some? ==> Key(next) in later.models
    ensures CaseKept(setting, routes + [next], next.primary, next.suite, later, before, Overlaid(now, verdict))
  {
    assert (routes + [next])[|routes|] == next;
    assert before.status == ExpectedStatus(setting);
  }

  lemma StepTreeFiles(tree: WorkerTree, route: Route, verdict: Verdict, cases: seq<Case>, key: FileKey)
    requires route.suite in tree.summaries && tree.summaries[route.suite].runs != []
    ensures var later := StepTree(tree, route, verdict, cases);
      && (key != Key(route) || verdict.InferenceFailed? ==>
            (key in tree.markdown ==> key in later.markdown && later.markdown[key] == tree.markdown[key]))
      && (key in tree.models ==> key in later.models)
      && (verdict.Applied? ==> Key(route) in later.markdown && later.markdown[Key(route)] == verdict.markdownSha)
      && (verdict.Applied? && verdict.modelSha.Some? ==> Key(route) in later.models)
  {
    hide CountStatus;
  }

  lemma StepFacts(trees: Trees, route: Route, verdict: Verdict)
    requires TargetOf(trees, route).Some?
    ensures SameFrame(trees, Step(trees, route, verdict))
    ensures forall worker :: worker in trees && worker != route.primary ==>
      Step(trees, route, verdict)[worker] == trees[worker]
    ensures Step(trees, route, verdict)[route.primary]
         == StepTree(trees[route.primary], route, verdict, StepCases(trees, route, verdict))
  {
    hide CountStatus, Find;
    FrameOfUpdate(trees[route.primary].summaries[route.suite], StepCases(trees, route, verdict));
  }

  lemma StepCasesAt(trees: Trees, route: Route, verdict: Verdict, worker: int, suite: string)
    requires TargetOf(trees, route).Some? && HasCases(trees, worker, suite)
    ensures HasCases(Step(trees, route, verdict), worker, suite)
    ensures CasesAt(Step(trees, route, verdict), worker, suite)
         == if worker == route.primary && suite == route.suite then StepCases(trees, route, verdict)
           else CasesAt(trees, worker, suite)
  {
    hide CountStatus, Find;
  }

  /** Facts that a verdict implies about its target. */
  lemma VerdictTarget(setting: Setting, trees: Trees, route: Route)
    requires Decide(setting, trees, route).Some?
    ensures TargetOf(trees, route).Some?
    ensures route.primary in trees && HasCases(trees, route.primary, route.suite)
    ensures var cases, k := CasesAt(trees, route.primary, route.suite), TargetOf(trees, route).value;
      && cases[k].caseId == route.caseId && cases[k].status == ExpectedStatus(setting)
      && (forall i :: 0 <= i < |cases| && i != k ==> cases[i].caseId != route.caseId)
      && IsSuite(route.suite)
  {
    hide CompletedVerdict, EmptyVerdict, IsSuite;
    assert TargetOk(setting, trees, route);
  }

  lemma OwnSlotKept(setting: Setting, base: Trees, now: Trees, done: seq<Route>, next: Route, verdict: Verdict)
    requires IsAlternateModel(setting.model) && Decide(setting, now, next) == Some(verdict)
    requires SlotKept(setting, base, now, done, next.primary, next.suite)
    requires HasCases(base, next.primary, next.suite) && HasCases(now, next.primary, next.suite) &&
      TargetOf(now, next).Some?
    ensures SlotKept(setting, base, Step(now, next, verdict), done + [next], next.primary, next.suite)
  {
    VerdictTarget(setting, now, next);
    OperationalNeedsModel(setting, now, next);
    StepFacts(now, next, verdict);
    StepCasesAt(now, next, verdict, next.primary, next.suite);
    var before, cases := CasesAt(base, next.primary, next.suite), CasesAt(now, next.primary, next.suite);
    var after := StepCases(now, next, verdict);
    var tree, later := now[next.primary], StepTree(now[next.primary], next, verdict, after);
    var k := TargetOf(now, next).value;
    assert SameIds(before, cases) && SameIds(before, after);
    hide CaseKept, Decide, StepTree, Step, SameFrame, CountStatus, Find, TargetOf, StepCases, ExpectedStatus, IsSuite;
    forall i | 0 <= i < |before|
      ensures CaseKept(setting, done + [next], next.primary, next.suite, later, before[i], after[i])
    {
      StepTreeFiles(tree, next, verdict, after, (next.suite, before[i].caseId));
      if i == k && verdict.Applied? {
        CaseReplaced(setting, done, next, tree, later, before[i], cases[i], verdict);
      } else {
        CaseKeptElsewhere(setting, done, next, next.primary, next.suite, tree, later, before[i], cases[i]);
      }
    }
  }

  lemma OtherSlotKept(setting: Setting, base: Trees, now: Trees, done: seq<Route>, next: Route, verdict: Verdict,
                      worker: int, suite: string)
    requires TargetOf(now, next).Some? && (worker != next.primary || suite != next.suite)
    requires SlotKept(setting, base, now, done, worker, suite)
    ensures SlotKept(setting, base, Step(now, next, verdict), done + [next], worker, suite)
  {
    if HasCases(base, worker, suite) {
      StepFacts(now, next, verdict);
      StepCasesAt(now, next, verdict, worker, suite);
      var before, cases := CasesAt(base, worker, suite), CasesAt(now, worker, suite);
      var tree, later := now[worker], Step(now, next, verdict)[worker];
      var after := StepCases(now, next, verdict);
      hide CaseKept, StepTree, Step, SameFrame, CountStatus, Find, TargetOf, StepCases;
      forall i | 0 <= i < |before| ensures CaseKept(setting, done + [next], worker, suite, later, before[i], cases[i]) {
        if worker == next.primary {
          StepTreeFiles(tree, next, verdict, after, (suite, before[i].caseId));
        }
        CaseKeptElsewhere(setting, done, next, worker, suite, tree, later, before[i], cases[i]);
      }
    }
  }

  // The loop.

  lemma StartOverlay(setting: Setting, base: Trees)
    ensures Overlay(setting, base, base, [], 0)
  {
    hide CompletedIn;
  }

  lemma SlotStep(setting: Setting, now: Trees, next: Route, verdict: Verdict)
    requires Decide(setting, now, next) == Some(verdict) && TargetOf(now, next).Some? && now.Keys == {0, 1, 2, 3}
    ensures IsSlot(next.primary, next.suite)
    ensures CompletedAt(Step(now, next, verdict), (next.primary, next.suite))
         == CompletedAt(now, (next.primary, next.suite)) + if setting.operational && verdict.Applied? then 1 else 0
  {
    hide *;
    var later := Step(now, next, verdict);
    VerdictTarget(setting, now, next);
    SlotMeaning(next.primary, next.suite);
    StepCasesAt(now, next, verdict, next.primary, next.suite);
    CountOfStep(setting, now, next, verdict);
    CompletedAtSlot(now, next.primary, next.suite);
    CompletedAtSlot(later, next.primary, next.suite);
  }

  lemma CountOfStep(setting: Setting, now: Trees, next: Route, verdict: Verdict)
    requires Decide(setting, now, next) == Some(verdict) && TargetOf(now, next).Some?
    ensures CountStatus(StepCases(now, next, verdict), "completed")
         == CountStatus(CasesAt(now, next.primary, next.suite), "completed")
            + if setting.operational && verdict.Applied? then 1 else 0
  {
    VerdictTarget(setting, now, next);
    var cases, k := CasesAt(now, next.primary, next.suite), TargetOf(now, next).value;
    hide CountStatus, Find, Decide, TargetOf;
    if verdict.Applied? {
      CountAfterUpdate(cases, k, Overlaid(cases[k], verdict), "completed");
    }
  }

  lemma OtherSlotCount(now: Trees, next: Route, verdict: Verdict, other: Slot)
    requires TargetOf(now, next).Some? && other != (next.primary, next.suite)
    ensures CompletedAt(Step(now, next, verdict), other) == CompletedAt(now, other)
  {
    StepFacts(now, next, verdict);
    SameFrameCases(now, Step(now, next, verdict), other.0, other.1);
    if HasCases(now, other.0, other.1) {
      StepCasesAt(now, next, verdict, other.0, other.1);
    }
  }

  lemma TotalStep(setting: Setting, now: Trees, next: Route, verdict: Verdict)
    requires Decide(setting, now, next) == Some(verdict) && TargetOf(now, next).Some? && now.Keys == {0, 1, 2, 3}
    ensures CompletedIn(Step(now, next, verdict), SLOTS)
         == CompletedIn(now, SLOTS) + if setting.operational && verdict.Applied? then 1 else 0
  {
    var later := Step(now, next, verdict);
    hide *;
    SlotStep(setting, now, next, verdict);
    forall other: Slot | IsSlot(other.0, other.1) && other != (next.primary, next.suite)
      ensures CompletedAt(later, other) == CompletedAt(now, other)
    {
      OtherSlotCount(now, next, verdict, other);
    }
    TotalChange(now, later, (next.primary, next.suite), if setting.operational && verdict.Applied? then 1 else 0);
  }

  lemma AnySlotKept(setting: Setting, base: Trees, now: Trees, done: seq<Route>, next: Route, verdict: Verdict,
                    worker: int, suite: string)
    requires IsAlternateModel(setting.model) && Decide(setting, now, next) == Some(verdict) && TargetOf(now, next).Some?
    requires SameFrame(base, now) && SlotKept(setting, base, now, done, worker, suite)
    ensures SlotKept(setting, base, Step(now, next, verdict), done + [next], worker, suite)
  {
    assert HasCases(now, next.primary, next.suite);
    hide *;
    if worker == next.primary && suite == next.suite {
      SameFrameCases(base, now, worker, suite);
      OwnSlotKept(setting, base, now, done, next, verdict);
    } else {
      OtherSlotKept(setting, base, now, done, next, verdict, worker, suite);
    }
  }

  lemma RouteStep(setting: Setting, base: Trees, now: Trees, done: seq<Route>, next: Route, verdict: Verdict,
                  applied: nat)
    requires IsAlternateModel(setting.model) && base.Keys == {0, 1, 2, 3}
    requires Decide(setting, now, next) == Some(verdict) && TargetOf(now, next).Some?
    requires Overlay(setting, base, now, done, applied)
    ensures Overlay(setting, base, Step(now, next, verdict), done + [next], applied + if verdict.Applied? then 1 else 0)
  {
    var later := Step(now, next, verdict);
    OverlayFrame(setting, base, now, done, applied);
    FramesCompose(base, now, later, next, verdict);
    TotalStep(setting, now, next, verdict);
    hide SlotKept, FilesKept, CompletedIn, SameFrame, Step, TargetOf, Decide;
    forall worker, key ensures FilesKept(setting, base, later, done + [next], worker, key) {
      StepKeeps(setting, base, now, done, next, verdict, worker, key);
    }
    forall worker, suite ensures SlotKept(setting, base, later, done + [next], worker, suite) {
      AnySlotKept(setting, base, now, done, next, verdict, worker, suite);
    }
  }

  lemma OverlayFrame(setting: Setting, base: Trees, now: Trees, done: seq<Route>, applied: nat)
    requires Overlay(setting, base, now, done, applied)
    ensures SameFrame(base, now) && base.Keys == now.Keys
  {
  }

  lemma FramesCompose(base: Trees, now: Trees, later: Trees, next: Route, verdict: Verdict)
    requires TargetOf(now, next).Some? && later == Step(now, next, verdict) && SameFrame(base, now)
    ensures SameFrame(base, later)
  {
    hide Step, TargetOf, Frame;
    StepFacts(now, next, verdict);
  }

  lemma NextIsStep(setting: Setting, progress: Progress, route: Route) returns (verdict: Verdict)
    requires NextOf(setting, progress, route).Some?
    ensures Decide(setting, progress.trees, route) == Some(verdict) && TargetOf(progress.trees, route).Some?
    ensures NextOf(setting, progress, route)
         == Some(Progress(Step(progress.trees, route, verdict), Counted(progress.receipt, verdict)))
  {
    hide Decide, TargetOf, Step, Counted;
    verdict := Decide(setting, progress.trees, route).value;
  }

  /** Whatever the routes, a run that comes to its end is an overlay, and its counters add up. */
  lemma {:induction false} RunIsOverlay(setting: Setting, base: Trees, routes: seq<Route>)
    requires IsAlternateModel(setting.model) && base.Keys == {0, 1, 2, 3}
    requires RunOf(setting, base, routes).Some?
    ensures var progress := RunOf(setting, base, routes).value;
      && progress.receipt.attempted == |routes| == progress.receipt.applied + progress.receipt.inferenceFailed
      && progress.receipt.emptyResolved <= progress.receipt.applied
      && Overlay(setting, base, progress.trees, routes, progress.receipt.applied)
    decreases |routes|
  {
    hide *;
    if routes == [] {
      StartOverlay(setting, base);
      NoRoutes(setting, base);
    } else {
      var n := |routes| - 1;
      var done, next := routes[..n], routes[n];
      assert routes == done + [next];
      var before := RunBefore(setting, base, done, next);
      RunIsOverlay(setting, base, done);
      LastRoute(setting, base, before, done, next);
    }
  }

  lemma RunBefore(setting: Setting, base: Trees, done: seq<Route>, next: Route) returns (before: Progress)
    requires RunOf(setting, base, done + [next]).Some?
    ensures RunOf(setting, base, done) == Some(before) && NextOf(setting, before, next).Some?
    ensures RunOf(setting, base, done + [next]) == NextOf(setting, before, next)
  {
    hide NextOf;
    assert (done + [next])[..|done|] == done;
    before := RunOf(setting, base, done).value;
  }

  lemma LastRoute(setting: Setting, base: Trees, before: Progress, done: seq<Route>, next: Route)
    requires IsAlternateModel(setting.model) && base.Keys == {0, 1, 2, 3}
    requires NextOf(setting, before, next).Some?
    requires before.receipt.attempted == |done| == before.receipt.applied + before.receipt.inferenceFailed
    requires before.receipt.emptyResolved <= before.receipt.applied
    requires Overlay(setting, base, before.trees, done, before.receipt.applied)
    ensures var progress := NextOf(setting, before, next).value;
      && progress.receipt.attempted == |done + [next]| == progress.receipt.applied + progress.receipt.inferenceFailed
      && progress.receipt.emptyResolved <= progress.receipt.applied
      && Overlay(setting, base, progress.trees, done + [next], progress.receipt.applied)
  {
    hide *;
    var verdict := NextIsStep(setting, before, next);
    RouteStep(setting, base, before.trees, done, next, verdict, before.receipt.applied);
    CountedTotals(before.receipt, verdict);
  }

  // What an applied route leaves behind.

  /** The composite holds this record for the case, and these files beside it. */
  ghost predicate Stands(now: Trees, route: Route, record: Case, markdownSha: string, modelSha: Option<string>) {
    && HasCases(now, route.primary, route.suite)
    && record.caseId == route.caseId && record in CasesAt(now, route.primary, route.suite)
    && Key(route) in now[route.primary].markdown && now[route.primary].markdown[Key(route)] == markdownSha
    && (modelSha.Some? ==>
          Key(route) in now[route.primary].models && now[route.primary].models[Key(route)] == modelSha.value)
  }

  /** The case of the composite that a route is about. */
  ghost function Found(trees: Trees, route: Route): Case
    requires TargetOf(trees, route).Some?
  {
    CasesAt(trees, route.primary, route.suite)[TargetOf(trees, route).value]
  }

  /** The record an application makes of the one it found. */
  function AppliedRecord(original: Case, verdict: Verdict): Case
    requires verdict.Applied?
  {
    Case(original.caseId, "completed", verdict.markdownSha, verdict.markdownCharacters, original.artifactSha,
         original.error)
  }

  lemma StepWrites(setting: Setting, now: Trees, next: Route, verdict: Verdict)
    requires Decide(setting, now, next) == Some(verdict) && TargetOf(now, next).Some? && verdict.Applied?
    ensures Stands(Step(now, next, verdict), next, AppliedRecord(Found(now, next), verdict), verdict.markdownSha,
                   verdict.modelSha)
  {
    VerdictTarget(setting, now, next);
    StepWritesCase(now, next, verdict);
    hide *;
    StepFacts(now, next, verdict);
    StepCasesAt(now, next, verdict, next.primary, next.suite);
    StepTreeFiles(now[next.primary], next, verdict, StepCases(now, next, verdict), Key(next));
    if verdict.modelSha.Some? {
      StepTreeModel(now[next.primary], next, verdict, StepCases(now, next, verdict));
    }
    StandsFromParts(Step(now, next, verdict), next, AppliedRecord(Found(now, next), verdict), verdict.markdownSha,
                    verdict.modelSha);
  }

  lemma StandsFromParts(now: Trees, route: Route, record: Case, markdownSha: string, modelSha: Option<string>)
    requires HasCases(now, route.primary, route.suite)
    requires record.caseId == route.caseId && record in CasesAt(now, route.primary, route.suite)
    requires Key(route) in now[route.primary].markdown && now[route.primary].markdown[Key(route)] == markdownSha
    requires modelSha.Some? ==>
      Key(route) in now[route.primary].models && now[route.primary].models[Key(route)] == modelSha.value
    ensures Stands(now, route, record, markdownSha, modelSha)
  {
  }

  lemma StepTreeModel(tree: WorkerTree, route: Route, verdict: Verdict, cases: seq<Case>)
    requires route.suite in tree.summaries && tree.summaries[route.suite].runs != []
    requires verdict.Applied? && verdict.modelSha.Some?
    ensures var later := StepTree(tree, route, verdict, cases);
      Key(route) in later.models && later.models[Key(route)] == verdict.modelSha.value
  {
    hide CountStatus;
  }

  lemma StepWritesCase(now: Trees, next: Route, verdict: Verdict)
    requires TargetOf(now, next).Some? && verdict.Applied?
    ensures AppliedRecord(Found(now, next), verdict).caseId == next.caseId
    ensures AppliedRecord(Found(now, next), verdict) in StepCases(now, next, verdict)
  {
    hide Find;
    assert StepCases(now, next, verdict)[TargetOf(now, next).value] in StepCases(now, next, verdict);
  }

  lemma StandsAlong(now: Trees, next: Route, verdict: Verdict, route: Route, record: Case, markdownSha: string,
                    modelSha: Option<string>)
    requires TargetOf(now, next).Some? && Stands(now, route, record, markdownSha, modelSha)
    requires (next.primary, Key(next)) != (route.primary, Key(route))
    ensures Stands(Step(now, next, verdict), route, record, markdownSha, modelSha)
  {
    StepFacts(now, next, verdict);
    StepCasesAt(now, next, verdict, route.primary, route.suite);
    var cases := CasesAt(now, route.primary, route.suite);
    var later := CasesAt(Step(now, next, verdict), route.primary, route.suite);
    var i :| 0 <= i < |cases| && cases[i] == record;
    assert later[i] == record;
    hide CountStatus, Step, SameFrame;
  }

  /** An applied route whose case no later route names leaves its record and its files to the end of the run. */
  lemma {:induction false} AppliedStands(setting: Setting, base: Trees, routes: seq<Route>, i: nat, before: Progress,
                                         verdict: Verdict)
    requires RunOf(setting, base, routes).Some? && i < |routes|
    requires RunOf(setting, base, routes[..i]) == Some(before)
    requires Decide(setting, before.trees, routes[i]) == Some(verdict) && verdict.Applied?
    requires forall j :: i < j < |routes| ==>
      (routes[j].primary, Key(routes[j])) != (routes[i].primary, Key(routes[i]))
    ensures TargetOf(before.trees, routes[i]).Some?
    ensures Stands(RunOf(setting, base, routes).value.trees, routes[i],
                   AppliedRecord(Found(before.trees, routes[i]), verdict), verdict.markdownSha, verdict.modelSha)
    decreases |routes|
  {
    hide *;
    var n := |routes| - 1;
    var done, next := routes[..n], routes[n];
    assert routes == done + [next];
    var last := RunBefore(setting, base, done, next);
    var taken := NextIsStep(setting, last, next);
    VerdictTarget(setting, before.trees, routes[i]);
    if i == n {
      StepWrites(setting, last.trees, next, taken);
    } else {
      assert done[..i] == routes[..i] && done[i] == routes[i];
      AppliedStands(setting, base, done, i, before, verdict);
      StandsAlong(last.trees, next, taken, routes[i], AppliedRecord(Found(before.trees, routes[i]), verdict),
                  verdict.markdownSha, verdict.modelSha);
    }
  }

  lemma CountedTotals(receipt: Receipt, verdict: Verdict)
    requires receipt.attempted == receipt.applied + receipt.inferenceFailed && receipt.emptyResolved <= receipt.applied
    ensures var next := Counted(receipt, verdict);
      && next.attempted == receipt.attempted + 1 == next.applied + next.inferenceFailed
      && next.emptyResolved <= next.applied
      && next.applied == receipt.applied + if verdict.Applied? then 1 else 0
  {
  }

  lemma NoRoutes(setting: Setting, base: Trees)
    ensures RunOf(setting, base, []) == Some(Progress(base, Receipt(0, 0, 0, 0)))
  {
  }
}
