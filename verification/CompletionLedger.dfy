/**
 * The completion ledger: which planned cases have output, and which tree is
 * credited with it.
 */
module CompletionLedger {
  import opened Reals
  import opened Sequences
  import opened Sorting

  datatype Case = Case(suite: string, id: string)

  datatype Error =
    | PlannedTwice(case_: Case)
    | PlanCountDiffers
    | RoundCountDiffers(name: string)
    | NoSuite(stem: string)
    | NotPlanned(unknown: set<Case>)
    | AttemptsUnplanned(name: string)

  // The roster.

  datatype Plan = Plan(suites: seq<Suite>, declared: Option<int>)
  datatype Suite = Suite(benchmark: string, shards: seq<Shard>)
  datatype Shard = Shard(worker: int, shardId: string, inputs: seq<Input>)
  datatype Input = Input(caseId: string, document: Option<string>, path: Option<string>)
  datatype Entry = Entry(key: Case, input: Input, worker: int, shardId: string)

  type Roster = map<Case, Entry>

  function ShardEntries(benchmark: string, shard: Shard): (entries: seq<Entry>)
    ensures |entries| == |shard.inputs|
  {
    seq(|shard.inputs|, i requires 0 <= i < |shard.inputs| =>
      Entry(Case(benchmark, shard.inputs[i].caseId), shard.inputs[i], shard.worker, shard.shardId))
  }

  function ShardsEntries(benchmark: string, shards: seq<Shard>): seq<Entry> {
    if shards == [] then []
    else ShardsEntries(benchmark, shards[..|shards| - 1]) + ShardEntries(benchmark, shards[|shards| - 1])
  }

  function SuitesEntries(suites: seq<Suite>): seq<Entry> {
    if suites == [] then []
    else
      var last := suites[|suites| - 1];
      SuitesEntries(suites[..|suites| - 1]) + ShardsEntries(last.benchmark, last.shards)
  }

  /** The entries are the inputs of all shards of all suites, each with its suite's name and its shard's worker. */
  lemma {:induction false} EntriesArePlanned(suites: seq<Suite>, entry: Entry)
    ensures entry in SuitesEntries(suites) <==>
      exists suite, shard, input :: suite in suites && shard in suite.shards && input in shard.inputs
        && entry == Entry(Case(suite.benchmark, input.caseId), input, shard.worker, shard.shardId)
  {
    if suites != [] {
      var n := |suites| - 1;
      EntriesArePlanned(suites[..n], entry);
      ShardsArePlanned(suites[n].benchmark, suites[n].shards, entry);
      hide ShardsEntries;
      assert suites == suites[..n] + [suites[n]];
    }
  }

  lemma {:induction false} ShardsArePlanned(benchmark: string, shards: seq<Shard>, entry: Entry)
    ensures entry in ShardsEntries(benchmark, shards) <==>
      exists shard, input :: shard in shards && input in shard.inputs
        && entry == Entry(Case(benchmark, input.caseId), input, shard.worker, shard.shardId)
  {
    if shards != [] {
      var n := |shards| - 1;
      ShardsArePlanned(benchmark, shards[..n], entry);
      ShardIsPlanned(benchmark, shards[n], entry);
      hide ShardEntries;
      assert shards == shards[..n] + [shards[n]];
    }
  }

  lemma ShardIsPlanned(benchmark: string, shard: Shard, entry: Entry)
    ensures entry in ShardEntries(benchmark, shard) <==>
      exists input :: input in shard.inputs
        && entry == Entry(Case(benchmark, input.caseId), input, shard.worker, shard.shardId)
  {
    var entries := ShardEntries(benchmark, shard);
    forall input | input in shard.inputs
      ensures Entry(Case(benchmark, input.caseId), input, shard.worker, shard.shardId) in entries
    {
      var i :| 0 <= i < |shard.inputs| && shard.inputs[i] == input;
      assert entries[i] in entries;
    }
  }

  ghost predicate DistinctCases(entries: seq<Entry>) {
    forall i, j :: 0 <= i < j < |entries| ==> entries[i].key != entries[j].key
  }

  /** The roster holds exactly the given entries, each under its own case. */
  ghost predicate IsRoster(roster: Roster, entries: seq<Entry>) {
    && DistinctCases(entries)
    && Assigns(roster, entries)
    && roster.Keys == CasesOf(entries)
    && |roster| == |entries|
  }

  ghost predicate Assigns(roster: Roster, entries: seq<Entry>) {
    forall i :: 0 <= i < |entries| ==> entries[i].key in roster && roster[entries[i].key] == entries[i]
  }

  function CasesOf(entries: seq<Entry>): set<Case> {
    set entry | entry in entries :: entry.key
  }

  lemma CasesOfMore(entries: seq<Entry>, entry: Entry)
    ensures CasesOf(entries + [entry]) == CasesOf(entries) + {entry.key}
  {
    var more := entries + [entry];
    assert entry in more;
    forall key | key in CasesOf(entries) ensures key in CasesOf(more) {
      var e :| e in entries && e.key == key;
      assert e in more;
    }
  }

  lemma RosterMore(roster: Roster, entries: seq<Entry>, entry: Entry)
    requires IsRoster(roster, entries)
    ensures entry.key in roster <==> !DistinctCases(entries + [entry])
    ensures entry.key !in roster ==> IsRoster(roster[entry.key := entry], entries + [entry])
  {
    if entry.key in roster {
      var i :| 0 <= i < |entries| && entries[i].key == entry.key;
      assert (entries + [entry])[i].key == (entries + [entry])[|entries|].key;
    } else {
      RosterGrows(roster, entries, entry);
    }
  }

  lemma RosterGrows(roster: Roster, entries: seq<Entry>, entry: Entry)
    requires IsRoster(roster, entries) && entry.key !in roster
    ensures IsRoster(roster[entry.key := entry], entries + [entry])
  {
    CasesOfMore(entries, entry);
    assert roster[entry.key := entry].Keys == roster.Keys + {entry.key};
    assert DistinctCases(entries + [entry]) && Assigns(roster[entry.key := entry], entries + [entry]) by {
      forall i | 0 <= i < |entries| ensures entries[i].key != entry.key {
        assert entries[i].key in roster;
      }
      hide IsRoster, CasesOf;
      DistinctMore(entries, entry);
      AssignsMore(roster, entries, entry);
    }
    hide CasesOf, DistinctCases, Assigns;
  }

  lemma DistinctMore(entries: seq<Entry>, entry: Entry)
    requires DistinctCases(entries)
    requires forall i :: 0 <= i < |entries| ==> entries[i].key != entry.key
    ensures DistinctCases(entries + [entry])
  {
  }

  lemma AssignsMore(roster: Roster, entries: seq<Entry>, entry: Entry)
    requires Assigns(roster, entries)
    requires forall i :: 0 <= i < |entries| ==> entries[i].key != entry.key
    ensures Assigns(roster[entry.key := entry], entries + [entry])
  {
  }

  lemma DistinctPrefix(entries: seq<Entry>, more: seq<Entry>)
    requires DistinctCases(entries + more)
    ensures DistinctCases(entries)
  {
    forall i, j | 0 <= i < j < |entries| ensures entries[i].key != entries[j].key {
      assert (entries + more)[i] == entries[i] && (entries + more)[j] == entries[j];
    }
  }

  method AddShard(roster: Roster, ghost before: seq<Entry>, benchmark: string, shard: Shard)
      returns (result: Result<Roster, Error>)
    requires IsRoster(roster, before)
    ensures result.Ok? <==> DistinctCases(before + ShardEntries(benchmark, shard))
    ensures result.Ok? ==> IsRoster(result.value, before + ShardEntries(benchmark, shard))
    ensures result.Err? ==> result.error.PlannedTwice?
  {
    hide IsRoster, DistinctCases;
    ghost var entries := ShardEntries(benchmark, shard);
    var more := roster;
    assert before + entries[..0] == before;
    for i := 0 to |shard.inputs|
      invariant IsRoster(more, before + entries[..i])
    {
      var input := shard.inputs[i];
      var key := Case(benchmark, input.caseId);
      var entry := Entry(key, input, shard.worker, shard.shardId);
      assert before + entries[..i + 1] == before + entries[..i] + [entry];
      RosterMore(more, before + entries[..i], entry);
      if key in more {
        assert before + entries == before + entries[..i + 1] + entries[i + 1..];
        if DistinctCases(before + entries) {
          DistinctPrefix(before + entries[..i + 1], entries[i + 1..]);
        }
        return Err(PlannedTwice(key));
      }
      more := more[key := entry];
    }
    assert entries[..|entries|] == entries;
    RosterIsDistinct(more, before + entries);
    result := Ok(more);
  }

  lemma RosterIsDistinct(roster: Roster, entries: seq<Entry>)
    requires IsRoster(roster, entries)
    ensures DistinctCases(entries) && |roster| == |entries|
  {
  }

  method AddSuite(roster: Roster, ghost before: seq<Entry>, suite: Suite) returns (result: Result<Roster, Error>)
    requires IsRoster(roster, before)
    ensures result.Ok? <==> DistinctCases(before + ShardsEntries(suite.benchmark, suite.shards))
    ensures result.Ok? ==> IsRoster(result.value, before + ShardsEntries(suite.benchmark, suite.shards))
    ensures result.Err? ==> result.error.PlannedTwice?
  {
    hide IsRoster, DistinctCases;
    var more := roster;
    assert before + ShardsEntries(suite.benchmark, suite.shards[..0]) == before;
    for i := 0 to |suite.shards|
      invariant IsRoster(more, before + ShardsEntries(suite.benchmark, suite.shards[..i]))
    {
      var shard := suite.shards[i];
      ghost var done := before + ShardsEntries(suite.benchmark, suite.shards[..i]);
      assert suite.shards[..i + 1][..i] == suite.shards[..i];
      assert before + ShardsEntries(suite.benchmark, suite.shards[..i + 1]) ==
        done + ShardEntries(suite.benchmark, shard);
      ShardsRest(suite.benchmark, suite.shards, i + 1, before);
      more :- AddShard(more, done, suite.benchmark, shard);
    }
    assert suite.shards[..|suite.shards|] == suite.shards;
    RosterIsDistinct(more, before + ShardsEntries(suite.benchmark, suite.shards));
    result := Ok(more);
  }

  /** Once some shards name a case twice, all of them do. */
  lemma {:induction false} ShardsRest(benchmark: string, shards: seq<Shard>, i: nat, before: seq<Entry>)
    requires i <= |shards|
    ensures DistinctCases(before + ShardsEntries(benchmark, shards)) ==>
      DistinctCases(before + ShardsEntries(benchmark, shards[..i]))
    decreases |shards| - i
  {
    hide DistinctCases;
    if i < |shards| {
      var done := before + ShardsEntries(benchmark, shards[..i]);
      assert shards[..i + 1][..i] == shards[..i];
      assert before + ShardsEntries(benchmark, shards[..i + 1]) == done + ShardEntries(benchmark, shards[i]);
      if DistinctCases(done + ShardEntries(benchmark, shards[i])) {
        DistinctPrefix(done, ShardEntries(benchmark, shards[i]));
      }
      ShardsRest(benchmark, shards, i + 1, before);
    } else {
      assert shards[..i] == shards;
    }
  }

  lemma {:induction false} SuitesRest(suites: seq<Suite>, i: nat)
    requires i <= |suites|
    ensures DistinctCases(SuitesEntries(suites)) ==> DistinctCases(SuitesEntries(suites[..i]))
    decreases |suites| - i
  {
    hide DistinctCases;
    if i < |suites| {
      var done, more := SuitesEntries(suites[..i]), ShardsEntries(suites[i].benchmark, suites[i].shards);
      assert suites[..i + 1][..i] == suites[..i];
      if DistinctCases(done + more) {
        DistinctPrefix(done, more);
      }
      SuitesRest(suites, i + 1);
    } else {
      assert suites[..i] == suites;
    }
  }

  /** Every planned case with its assignment; refused when a case is planned twice or the declared count differs. */
  method LoadRoster(plan: Plan) returns (result: Result<Roster, Error>)
    ensures result.Ok? <==>
      && DistinctCases(SuitesEntries(plan.suites))
      && (plan.declared.None? || plan.declared.value == |SuitesEntries(plan.suites)|)
    ensures result.Ok? ==> IsRoster(result.value, SuitesEntries(plan.suites))
  {
    hide IsRoster, DistinctCases;
    var roster: Roster := map[];
    assert IsRoster(roster, []) by {
      EmptyRoster();
    }
    for i := 0 to |plan.suites|
      invariant IsRoster(roster, SuitesEntries(plan.suites[..i]))
    {
      assert plan.suites[..i + 1][..i] == plan.suites[..i];
      SuitesRest(plan.suites, i + 1);
      roster :- AddSuite(roster, SuitesEntries(plan.suites[..i]), plan.suites[i]);
    }
    assert plan.suites[..|plan.suites|] == plan.suites;
    RosterIsDistinct(roster, SuitesEntries(plan.suites));
    if plan.declared.Some? && |roster| != plan.declared.value {
      return Err(PlanCountDiffers);
    }
    result := Ok(roster);
  }

  lemma EmptyRoster()
    ensures IsRoster(map[], [])
  {
  }

  // Delivered predictions.

  datatype Prediction = Prediction(stem: string, blank: bool)
  datatype Root = Root(name: string, predictions: seq<Prediction>)

  type Delivered = map<Case, string>

  const BENCHMARKS := ["omnidocbench", "parsebench", "olmocr-bench"]

  function BenchmarkOf(stem: string): Option<string> {
    if BENCHMARKS[0] <= stem then Some(BENCHMARKS[0])
    else if BENCHMARKS[1] <= stem then Some(BENCHMARKS[1])
    else if BENCHMARKS[2] <= stem then Some(BENCHMARKS[2])
    else None
  }

  /** A prediction belongs to the benchmark whose name its own name begins with. */
  lemma BenchmarkIsPrefix(stem: string, benchmark: string)
    ensures BenchmarkOf(stem) == Some(benchmark) <==>
      benchmark in ["omnidocbench", "parsebench", "olmocr-bench"] && benchmark <= stem
  {
    assert "omnidocbench"[0] == 'o' && "parsebench"[0] == 'p' && "olmocr-bench"[0] == 'o';
    assert "omnidocbench"[1] == 'm' && "olmocr-bench"[1] == 'l';
  }

  /** The tree holds output for the case. */
  ghost predicate Has(root: Root, key: Case) {
    exists p :: p in root.predictions && !p.blank && p.stem == key.id && BenchmarkOf(p.stem) == Some(key.suite)
  }

  ghost predicate Attributable(root: Root) {
    forall p :: p in root.predictions && !p.blank ==> BenchmarkOf(p.stem).Some?
  }

  /** The position of the earliest tree that has the case. */
  ghost predicate FirstRootWith(roots: seq<Root>, key: Case, i: nat) {
    && i < |roots| && Has(roots[i], key)
    && forall j :: 0 <= j < i ==> !Has(roots[j], key)
  }

  /** Every case some tree has is credited to the earliest such tree, and no other case is. */
  ghost predicate IsDelivered(delivered: Delivered, roots: seq<Root>) {
    && (forall key :: key in delivered <==> exists i :: 0 <= i < |roots| && Has(roots[i], key))
    && (forall key, i: nat :: FirstRootWith(roots, key, i) ==> key in delivered && delivered[key] == roots[i].name)
  }

  /** Reads one tree: cases it has and that are not delivered yet are credited to it. */
  method AddRoot(earlier: Delivered, root: Root) returns (result: Result<Delivered, Error>)
    ensures result.Ok? <==> Attributable(root)
    ensures result.Ok? ==> forall key :: key in result.value <==> key in earlier || Has(root, key)
    ensures result.Ok? ==> forall key :: key in result.value ==>
      result.value[key] == if key in earlier then earlier[key] else root.name
  {
    hide BenchmarkOf;
    var delivered := earlier;
    for i := 0 to |root.predictions|
      invariant Attributable(Root(root.name, root.predictions[..i]))
      invariant forall key :: key in delivered <==> key in earlier || Has(Root(root.name, root.predictions[..i]), key)
      invariant forall key :: key in delivered ==> delivered[key] == if key in earlier then earlier[key] else root.name
    {
      var p := root.predictions[i];
      assert root.predictions[..i + 1] == root.predictions[..i] + [p];
      if !p.blank {
        var benchmark := BenchmarkOf(p.stem);
        if benchmark.None? {
          return Err(NoSuite(p.stem));
        }
        var key := Case(benchmark.value, p.stem);
        if key !in delivered {
          delivered := delivered[key := root.name];
        }
      }
    }
    assert root.predictions[..|root.predictions|] == root.predictions;
    result := Ok(delivered);
  }

  method LoadDelivered(roots: seq<Root>) returns (result: Result<Delivered, Error>)
    ensures result.Ok? <==> forall i :: 0 <= i < |roots| ==> Attributable(roots[i])
    ensures result.Ok? ==> IsDelivered(result.value, roots)
  {
    hide Has, Attributable;
    var delivered: Delivered := map[];
    for i := 0 to |roots|
      invariant forall j :: 0 <= j < i ==> Attributable(roots[j])
      invariant IsDelivered(delivered, roots[..i])
    {
      var more :- AddRoot(delivered, roots[i]);
      assert roots[..i + 1] == roots[..i] + [roots[i]];
      DeliveredMore(delivered, roots[..i], roots[i], more);
      delivered := more;
    }
    assert roots[..|roots|] == roots;
    result := Ok(delivered);
  }

  lemma DeliveredMore(delivered: Delivered, roots: seq<Root>, root: Root, more: Delivered)
    requires IsDelivered(delivered, roots)
    requires forall key :: key in more <==> key in delivered || Has(root, key)
    requires forall key :: key in more ==> more[key] == if key in delivered then delivered[key] else root.name
    ensures IsDelivered(more, roots + [root])
  {
    hide Has;
    var all := roots + [root];
    assert forall j :: 0 <= j < |roots| ==> all[j] == roots[j];
    assert all[|roots|] == root;
    forall key ensures key in more <==> exists i :: 0 <= i < |all| && Has(all[i], key) {
      if key in delivered {
        var i :| 0 <= i < |roots| && Has(roots[i], key);
        assert Has(all[i], key);
      }
    }
    forall key, i: nat | FirstRootWith(all, key, i) ensures key in more && more[key] == all[i].name {
      if i < |roots| {
        assert forall j :: 0 <= j < i ==> !Has(roots[j], key) by {
          assert forall j :: 0 <= j < i ==> !Has(all[j], key);
        }
        assert FirstRootWith(roots, key, i);
      } else {
        assert forall j :: 0 <= j < |roots| ==> !Has(roots[j], key) by {
          assert forall j :: 0 <= j < i ==> !Has(all[j], key);
        }
        assert key !in delivered;
      }
    }
  }

  // Retry rounds.

  datatype RetryPlan = RetryPlan(name: string, failures: seq<Case>, declared: Option<int>)
  datatype Round = Round(name: string, attempted: set<Case>)

  ghost predicate CountAgrees(plan: RetryPlan) {
    plan.declared.None? || plan.declared.value == |Elements(plan.failures)|
  }

  /** The cases each round was asked to rescue; refused when a declared count is not the number of different cases. */
  method LoadRetryRounds(plans: seq<RetryPlan>) returns (result: Result<seq<Round>, Error>)
    ensures result.Ok? <==> forall i :: 0 <= i < |plans| ==> CountAgrees(plans[i])
    ensures result.Ok? ==>
      && |result.value| == |plans|
      && forall i :: 0 <= i < |plans| ==> result.value[i] == Round(plans[i].name, Elements(plans[i].failures))
  {
    var rounds: seq<Round> := [];
    for i := 0 to |plans|
      invariant forall j :: 0 <= j < i ==> CountAgrees(plans[j])
      invariant |rounds| == i && forall j :: 0 <= j < i ==>
        rounds[j] == Round(plans[j].name, Elements(plans[j].failures))
    {
      var attempted := Elements(plans[i].failures);
      if plans[i].declared.Some? && |attempted| != plans[i].declared.value {
        return Err(RoundCountDiffers(plans[i].name));
      }
      rounds := rounds + [Round(plans[i].name, attempted)];
    }
    result := Ok(rounds);
  }

  datatype RoundRow = RoundRow(name: string, attempted: nat, recovered: nat, missing: nat, rate: real)

  datatype Recovery = Recovery(
    needed: nat,
    recovered: nat,
    rate: real,
    moreThanOneRound: nat,
    perRound: seq<RoundRow>,
    stillMissing: set<Case>,
    neverAttempted: set<Case>)

  ghost function Attempted(rounds: seq<Round>): set<Case> {
    set i, key | 0 <= i < |rounds| && key in rounds[i].attempted :: key
  }

  function Share(part: nat, whole: nat): real {
    if whole == 0 then 0.0 else part as real / whole as real
  }

  ghost predicate IsRoundRow(row: RoundRow, round: Round, delivered: Delivered) {
    && row.name == round.name
    && row.attempted == |round.attempted|
    && row.recovered == |round.attempted * delivered.Keys|
    && row.missing == |round.attempted - delivered.Keys|
    && row.rate == Share(row.recovered, row.attempted)
  }

  /** A recovery summary in terms of the rounds, the deliveries and the roster. */
  ghost predicate IsRecovery(r: Recovery, rounds: seq<Round>, delivered: Delivered, roster: Roster) {
    && r.needed == |Attempted(rounds)|
    && r.recovered == |Attempted(rounds) * delivered.Keys|
    && r.rate == Share(r.recovered, r.needed)
    && r.stillMissing == Attempted(rounds) - delivered.Keys
    && r.neverAttempted == roster.Keys - delivered.Keys - Attempted(rounds)
    && r.moreThanOneRound == (if |rounds| > 1 then |rounds[0].attempted * Attempted(rounds[1..])| else 0)
    && AreRoundRows(r.perRound, rounds, delivered)
  }

  ghost predicate AreRoundRows(rows: seq<RoundRow>, rounds: seq<Round>, delivered: Delivered) {
    |rows| == |rounds| && forall i :: 0 <= i < |rounds| ==> IsRoundRow(rows[i], rounds[i], delivered)
  }

  lemma RoundRowsMore(rows: seq<RoundRow>, rounds: seq<Round>, delivered: Delivered, row: RoundRow, round: Round)
    requires AreRoundRows(rows, rounds, delivered) && IsRoundRow(row, round, delivered)
    ensures AreRoundRows(rows + [row], rounds + [round], delivered)
  {
    hide IsRoundRow;
  }

  /** The row of one round; refused when the round attempts a case that was never planned. */
  method SummariseRound(round: Round, delivered: Delivered, roster: Roster) returns (result: Result<RoundRow, Error>)
    ensures result.Ok? <==> round.attempted <= roster.Keys
    ensures result.Ok? ==> IsRoundRow(result.value, round, delivered)
  {
    hide Share;
    var unknown := round.attempted - roster.Keys;
    EmptyDifference(round.attempted, roster.Keys);
    if unknown != {} {
      return Err(AttemptsUnplanned(round.name));
    }
    var recovered := set key | key in round.attempted && key in delivered;
    SetDifferenceIsMissing(round.attempted, recovered, delivered);
    result := Ok(RoundRow(round.name, |round.attempted|, |recovered|, |round.attempted - recovered|,
                          Share(|recovered|, |round.attempted|)));
  }

  /** Every round attempts planned cases only. */
  ghost predicate AllPlanned(rounds: seq<Round>, roster: Roster) {
    forall i :: 0 <= i < |rounds| ==> rounds[i].attempted <= roster.Keys
  }

  lemma AllPlannedMore(rounds: seq<Round>, roster: Roster, i: nat)
    requires i < |rounds|
    ensures AllPlanned(rounds[..i], roster) && rounds[i].attempted <= roster.Keys ==>
      AllPlanned(rounds[..i + 1], roster)
    ensures !(rounds[i].attempted <= roster.Keys) ==> !AllPlanned(rounds, roster)
  {
  }

  lemma AttemptedMore(rounds: seq<Round>, round: Round)
    ensures Attempted(rounds + [round]) == Attempted(rounds) + round.attempted
  {
    var more := rounds + [round];
    assert forall i :: 0 <= i < |rounds| ==> more[i] == rounds[i];
    assert more[|rounds|] == round;
  }

  lemma SetDifferenceIsMissing(attempted: set<Case>, recovered: set<Case>, delivered: Delivered)
    requires recovered == set key | key in attempted && key in delivered
    ensures recovered == attempted * delivered.Keys && attempted - recovered == attempted - delivered.Keys
  {
  }

  /** The rows of all rounds, and every case that some round attempted. */
  method SummariseRounds(rounds: seq<Round>, delivered: Delivered, roster: Roster)
      returns (result: Result<(seq<RoundRow>, set<Case>), Error>)
    ensures result.Ok? <==> AllPlanned(rounds, roster)
    ensures result.Ok? ==> AreRoundRows(result.value.0, rounds, delivered) && result.value.1 == Attempted(rounds)
  {
    var perRound: seq<RoundRow> := [];
    var ever: set<Case> := {};
    NothingAttempted();
    assert AllPlanned(rounds[..0], roster) && AreRoundRows(perRound, rounds[..0], delivered);
    hide *;
    for i := 0 to |rounds|
      invariant AllPlanned(rounds[..i], roster)
      invariant ever == Attempted(rounds[..i])
      invariant AreRoundRows(perRound, rounds[..i], delivered)
    {
      var round := rounds[i];
      AllPlannedMore(rounds, roster, i);
      var row :- SummariseRound(round, delivered, roster);
      assert rounds[..i + 1] == rounds[..i] + [round];
      AttemptedMore(rounds[..i], round);
      RoundRowsMore(perRound, rounds[..i], delivered, row, round);
      ever := ever + round.attempted;
      perRound := perRound + [row];
    }
    assert rounds[..|rounds|] == rounds;
    result := Ok((perRound, ever));
  }

  method SummariseRecovery(rounds: seq<Round>, delivered: Delivered, roster: Roster)
      returns (result: Result<Recovery, Error>)
    ensures result.Ok? <==> AllPlanned(rounds, roster)
    ensures result.Ok? ==> IsRecovery(result.value, rounds, delivered, roster)
  {
    hide IsRecovery, AllPlanned, AreRoundRows, Attempted, Share;
    var summarised :- SummariseRounds(rounds, delivered, roster);
    hide *;
    var (perRound, ever) := summarised;
    var recoveredOverall := set key | key in ever && key in delivered;
    SetDifferenceIsMissing(ever, recoveredOverall, delivered);
    var moreThanOne := 0;
    if |rounds| > 1 {
      var later := AttemptedLater(rounds);
      moreThanOne := |rounds[0].attempted * later|;
    }
    var summary := Recovery(|ever|, |recoveredOverall|, Share(|recoveredOverall|, |ever|), moreThanOne, perRound,
                            ever - recoveredOverall, roster.Keys - delivered.Keys - ever);
    RecoveryFromParts(summary, rounds, delivered, roster);
    result := Ok(summary);
  }

  lemma RecoveryFromParts(r: Recovery, rounds: seq<Round>, delivered: Delivered, roster: Roster)
    requires r.needed == |Attempted(rounds)| && r.recovered == |Attempted(rounds) * delivered.Keys|
    requires r.rate == Share(r.recovered, r.needed)
    requires r.stillMissing == Attempted(rounds) - delivered.Keys
    requires r.neverAttempted == roster.Keys - delivered.Keys - Attempted(rounds)
    requires r.moreThanOneRound == if |rounds| > 1 then |rounds[0].attempted * Attempted(rounds[1..])| else 0
    requires AreRoundRows(r.perRound, rounds, delivered)
    ensures IsRecovery(r, rounds, delivered, roster)
  {
    hide Attempted, Share, AreRoundRows;
  }

  lemma NothingAttempted()
    ensures Attempted([]) == {}
  {
  }

  method AttemptedLater(rounds: seq<Round>) returns (later: set<Case>)
    requires |rounds| > 1
    ensures later == Attempted(rounds[1..])
  {
    later := {};
    NothingAttempted();
    for i := 1 to |rounds|
      invariant later == Attempted(rounds[1..i])
    {
      assert rounds[1..i + 1] == rounds[1..i] + [rounds[i]];
      AttemptedMore(rounds[1..i], rounds[i]);
      later := later + rounds[i].attempted;
    }
    assert rounds[1..|rounds|] == rounds[1..];
  }

  // The ledger.

  datatype SuiteRow = SuiteRow(suite: string, planned: nat, resolved: nat, unresolved: nat)

  datatype Ledger = Ledger(
    planned: nat,
    resolved: nat,
    unresolved: nat,
    completion: real,
    byBaseline: nat,
    byRecovery: int,
    recoveryShare: real,
    bySuite: seq<SuiteRow>,
    byTree: map<string, nat>,
    unresolvedCases: set<Case>,
    recovery: Option<Recovery>)

  ghost function Named(cases: set<Case>, nameOf: Case -> string, name: string): set<Case> {
    set key | key in cases && nameOf(key) == name
  }

  function SuiteOf(key: Case): string {
    key.suite
  }

  function TreeOf(delivered: Delivered): Case -> string {
    key => if key in delivered then delivered[key] else ""
  }

  ghost predicate IsTally(counts: map<string, nat>, cases: set<Case>, nameOf: Case -> string) {
    && (forall key :: key in cases ==> nameOf(key) in counts)
    && (forall name :: name in counts ==> counts[name] == |Named(cases, nameOf, name)| > 0)
  }

  lemma TallyMore(counts: map<string, nat>, cases: set<Case>, nameOf: Case -> string, key: Case)
    requires IsTally(counts, cases, nameOf) && key !in cases
    ensures var name := nameOf(key);
      IsTally(counts[name := 1 + if name in counts then counts[name] else 0], cases + {key}, nameOf)
  {
    var name := nameOf(key);
    var more := counts[name := 1 + if name in counts then counts[name] else 0];
    forall other | other in more ensures more[other] == |Named(cases + {key}, nameOf, other)| > 0 {
      NamedMore(cases, nameOf, key, other);
      TallyCounts(counts, cases, nameOf, other);
    }
    hide Named;
  }

  lemma NamedMore(cases: set<Case>, nameOf: Case -> string, key: Case, name: string)
    requires key !in cases
    ensures |Named(cases + {key}, nameOf, name)| == |Named(cases, nameOf, name)| + if nameOf(key) == name then 1 else 0
  {
    if nameOf(key) == name {
      assert Named(cases + {key}, nameOf, name) == Named(cases, nameOf, name) + {key};
    } else {
      assert Named(cases + {key}, nameOf, name) == Named(cases, nameOf, name);
    }
  }

  /** How many cases have each name. */
  method CountBy(cases: set<Case>, nameOf: Case -> string) returns (counts: map<string, nat>)
    ensures IsTally(counts, cases, nameOf)
  {
    hide IsTally;
    counts := map[];
    var rest := cases;
    assert cases - rest == {};
    EmptyTally(nameOf);
    while rest != {}
      invariant rest <= cases
      invariant IsTally(counts, cases - rest, nameOf)
      decreases rest
    {
      var key :| key in rest;
      TallyMore(counts, cases - rest, nameOf, key);
      assert cases - (rest - {key}) == (cases - rest) + {key};
      var name := nameOf(key);
      counts := counts[name := 1 + if name in counts then counts[name] else 0];
      rest := rest - {key};
    }
    assert cases - rest == cases;
  }

  lemma EmptyTally(nameOf: Case -> string)
    ensures IsTally(map[], {}, nameOf)
  {
  }

  function CountOf(counts: map<string, nat>, name: string): nat {
    if name in counts then counts[name] else 0
  }

  lemma TallyCounts(counts: map<string, nat>, cases: set<Case>, nameOf: Case -> string, name: string)
    requires IsTally(counts, cases, nameOf)
    ensures CountOf(counts, name) == |Named(cases, nameOf, name)|
  {
    if name !in counts {
      assert Named(cases, nameOf, name) == {};
    }
  }

  ghost predicate IsSuiteRow(row: SuiteRow, roster: Roster, delivered: Delivered) {
    && row.planned == |Named(roster.Keys, SuiteOf, row.suite)|
    && row.resolved == |Named(roster.Keys * delivered.Keys, SuiteOf, row.suite)|
    && row.unresolved == |Named(roster.Keys - delivered.Keys, SuiteOf, row.suite)|
  }

  function SuiteNames(rows: seq<SuiteRow>): (names: seq<string>)
    ensures |names| == |rows|
    ensures forall i :: 0 <= i < |rows| ==> names[i] == rows[i].suite
  {
    seq(|rows|, i requires 0 <= i < |rows| => rows[i].suite)
  }

  /** A ledger in terms of the roster and the deliveries. */
  ghost predicate IsLedger(l: Ledger, roster: Roster, delivered: Delivered, baseline: string, rounds: seq<Round>) {
    && l.planned == |roster|
    && l.resolved == |roster.Keys * delivered.Keys|
    && l.unresolvedCases == roster.Keys - delivered.Keys
    && l.unresolved == |l.unresolvedCases|
    && l.completion == Share(l.resolved, l.planned)
    && l.byBaseline == |Named(roster.Keys * delivered.Keys, TreeOf(delivered), baseline)|
    && l.byRecovery == l.resolved - l.byBaseline
    && l.recoveryShare == (if roster == map[] then 0.0 else l.byRecovery as real / |roster| as real)
    && IsTally(l.byTree, roster.Keys * delivered.Keys, TreeOf(delivered))
    && (forall i :: 0 <= i < |l.bySuite| ==> IsSuiteRow(l.bySuite[i], roster, delivered))
    && Distinct(SuiteNames(l.bySuite))
    && (forall key :: key in roster ==> key.suite in SuiteNames(l.bySuite))
    && (l.recovery.None? <==> rounds == [])
    && (l.recovery.Some? ==> IsRecovery(l.recovery.value, rounds, delivered, roster))
  }

  method SuiteRows(roster: Roster, delivered: Delivered) returns (rows: seq<SuiteRow>)
    ensures forall i :: 0 <= i < |rows| ==> IsSuiteRow(rows[i], roster, delivered)
    ensures Distinct(SuiteNames(rows))
    ensures forall key :: key in roster ==> key.suite in SuiteNames(rows)
  {
    hide *;
    var planned := CountBy(roster.Keys, SuiteOf);
    var resolved := CountBy(roster.Keys * delivered.Keys, SuiteOf);
    var unresolved := CountBy(roster.Keys - delivered.Keys, SuiteOf);
    var suites := SortedStrings(planned.Keys);
    TallyNames(planned, roster.Keys);
    assert forall key :: key in roster ==> key.suite in suites;
    rows := [];
    NoSuiteRows(roster, delivered);
    for i := 0 to |suites|
      invariant AreSuiteRows(rows, suites[..i], roster, delivered)
    {
      var suite := suites[i];
      assert suites[..i + 1] == suites[..i] + [suite];
      var row := SuiteRow(suite, CountOf(planned, suite), CountOf(resolved, suite), CountOf(unresolved, suite));
      SuiteRowIs(row, roster, delivered, planned, resolved, unresolved);
      SuiteRowsMore(rows, suites[..i], roster, delivered, row);
      rows := rows + [row];
    }
    assert suites[..|suites|] == suites;
    SuiteRowsNames(rows, suites, roster, delivered);
  }

  ghost predicate AreSuiteRows(rows: seq<SuiteRow>, suites: seq<string>, roster: Roster, delivered: Delivered) {
    |rows| == |suites| && forall i :: 0 <= i < |rows| ==>
      rows[i].suite == suites[i] && IsSuiteRow(rows[i], roster, delivered)
  }

  lemma NoSuiteRows(roster: Roster, delivered: Delivered)
    ensures AreSuiteRows([], [], roster, delivered)
  {
  }

  lemma SuiteRowsMore(rows: seq<SuiteRow>, suites: seq<string>, roster: Roster, delivered: Delivered, row: SuiteRow)
    requires AreSuiteRows(rows, suites, roster, delivered)
    requires IsSuiteRow(row, roster, delivered)
    ensures AreSuiteRows(rows + [row], suites + [row.suite], roster, delivered)
  {
    hide IsSuiteRow;
  }

  lemma SuiteRowIs(row: SuiteRow, roster: Roster, delivered: Delivered,
                   planned: map<string, nat>, resolved: map<string, nat>, unresolved: map<string, nat>)
    requires IsTally(planned, roster.Keys, SuiteOf)
    requires IsTally(resolved, roster.Keys * delivered.Keys, SuiteOf)
    requires IsTally(unresolved, roster.Keys - delivered.Keys, SuiteOf)
    requires row.planned == CountOf(planned, row.suite)
    requires row.resolved == CountOf(resolved, row.suite)
    requires row.unresolved == CountOf(unresolved, row.suite)
    ensures IsSuiteRow(row, roster, delivered)
  {
    TallyCounts(planned, roster.Keys, SuiteOf, row.suite);
    TallyCounts(resolved, roster.Keys * delivered.Keys, SuiteOf, row.suite);
    TallyCounts(unresolved, roster.Keys - delivered.Keys, SuiteOf, row.suite);
    hide IsTally, CountOf, Named;
  }

  lemma SuiteRowsNames(rows: seq<SuiteRow>, suites: seq<string>, roster: Roster, delivered: Delivered)
    requires AreSuiteRows(rows, suites, roster, delivered)
    ensures SuiteNames(rows) == suites
    ensures forall i :: 0 <= i < |rows| ==> IsSuiteRow(rows[i], roster, delivered)
  {
    hide IsSuiteRow;
  }

  lemma TallyNames(counts: map<string, nat>, cases: set<Case>)
    requires IsTally(counts, cases, SuiteOf)
    ensures forall key :: key in cases ==> key.suite in counts
  {
    assert forall key :: key in cases ==> SuiteOf(key) in counts;
  }

  /** Refuses deliveries outside the plan; otherwise counts the roster by outcome, suite and credited tree. */
  method BuildLedger(roster: Roster, delivered: Delivered, baseline: string, rounds: seq<Round>)
      returns (result: Result<Ledger, Error>)
    ensures result.Ok? <==> delivered.Keys <= roster.Keys && AllPlanned(rounds, roster)
    ensures result.Ok? ==> IsLedger(result.value, roster, delivered, baseline, rounds)
  {
    var unknown := delivered.Keys - roster.Keys;
    EmptyDifference(delivered.Keys, roster.Keys);
    if unknown != {} {
      return Err(NotPlanned(unknown));
    }
    assert rounds == [] ==> AllPlanned(rounds, roster);
    hide *;
    var resolved, unresolved := roster.Keys * delivered.Keys, roster.Keys - delivered.Keys;
    var bySuite := SuiteRows(roster, delivered);
    var byTree := CountBy(resolved, TreeOf(delivered));
    TallyCounts(byTree, resolved, TreeOf(delivered), baseline);
    var byBaseline := CountOf(byTree, baseline);
    var byRecovery := |resolved| - byBaseline;
    var recovery := None;
    if rounds != [] {
      var summary :- SummariseRecovery(rounds, delivered, roster);
      recovery := Some(summary);
    }
    var recoveryShare := if roster == map[] then 0.0 else byRecovery as real / |roster| as real;
    result := Ok(Ledger(|roster|, |resolved|, |unresolved|, Share(|resolved|, |roster|), byBaseline, byRecovery,
                        recoveryShare, bySuite, byTree, unresolved, recovery));
    LedgerFromParts(result.value, roster, delivered, baseline, rounds);
  }

  lemma LedgerFromParts(l: Ledger, roster: Roster, delivered: Delivered, baseline: string, rounds: seq<Round>)
    requires l.planned == |roster| && l.resolved == |roster.Keys * delivered.Keys|
    requires l.unresolvedCases == roster.Keys - delivered.Keys && l.unresolved == |l.unresolvedCases|
    requires l.completion == Share(l.resolved, l.planned)
    requires l.byBaseline == |Named(roster.Keys * delivered.Keys, TreeOf(delivered), baseline)|
    requires l.byRecovery == l.resolved - l.byBaseline
    requires l.recoveryShare == if roster == map[] then 0.0 else l.byRecovery as real / |roster| as real
    requires IsTally(l.byTree, roster.Keys * delivered.Keys, TreeOf(delivered))
    requires forall i :: 0 <= i < |l.bySuite| ==> IsSuiteRow(l.bySuite[i], roster, delivered)
    requires Distinct(SuiteNames(l.bySuite))
    requires forall key :: key in roster ==> key.suite in SuiteNames(l.bySuite)
    requires l.recovery.None? <==> rounds == []
    requires l.recovery.Some? ==> IsRecovery(l.recovery.value, rounds, delivered, roster)
    ensures IsLedger(l, roster, delivered, baseline, rounds)
  {
    hide IsTally, IsSuiteRow, IsRecovery, Named, TreeOf, Share, Distinct, SuiteNames;
  }

  // Conservation.

  /** Counting cases name by name counts all of them. */
  lemma {:induction false} NamesAddUp(cases: set<Case>, nameOf: Case -> string, names: seq<string>)
    requires Distinct(names) && forall key :: key in cases ==> nameOf(key) in names
    ensures Sum((name: string) => |Named(cases, nameOf, name)|, names) == |cases|
    decreases |names|
  {
    var count := (name: string) => |Named(cases, nameOf, name)|;
    if names == [] {
      assert cases == {};
    } else {
      var n := |names| - 1;
      var last := Named(cases, nameOf, names[n]);
      var rest := cases - last;
      assert names == names[..n] + [names[n]];
      NamesAddUp(rest, nameOf, names[..n]);
      var restCount := (name: string) => |Named(rest, nameOf, name)|;
      forall i | 0 <= i < n ensures restCount(names[i]) == count(names[i]) {
        assert Named(rest, nameOf, names[i]) == Named(cases, nameOf, names[i]);
      }
      SumAgrees(restCount, count, names[..n]);
    }
  }

  lemma {:induction false} SumAgrees<T>(f: T -> int, g: T -> int, s: seq<T>)
    requires forall i :: 0 <= i < |s| ==> f(s[i]) == g(s[i])
    ensures Sum(f, s) == Sum(g, s)
  {
    if s != [] {
      SumAgrees(f, g, s[..|s| - 1]);
    }
  }

  function PlannedOf(rows: seq<SuiteRow>): int {
    Sum((row: SuiteRow) => row.planned, rows)
  }

  function ResolvedOf(rows: seq<SuiteRow>): int {
    Sum((row: SuiteRow) => row.resolved, rows)
  }

  function UnresolvedOf(rows: seq<SuiteRow>): int {
    Sum((row: SuiteRow) => row.unresolved, rows)
  }

  /** A column that counts, row by row, the cases of that row's suite adds up to all those cases. */
  lemma {:induction false} ColumnAddsUp(rows: seq<SuiteRow>, column: SuiteRow -> int, cases: set<Case>)
    requires forall i :: 0 <= i < |rows| ==> column(rows[i]) == |Named(cases, SuiteOf, rows[i].suite)|
    ensures Sum(column, rows) == Sum((name: string) => |Named(cases, SuiteOf, name)|, SuiteNames(rows))
  {
    var count := (name: string) => |Named(cases, SuiteOf, name)|;
    if rows != [] {
      var n := |rows| - 1;
      ColumnAddsUp(rows[..n], column, cases);
      assert SuiteNames(rows)[..n] == SuiteNames(rows[..n]);
    }
  }

  lemma SplitSizes(whole: set<Case>, part: set<Case>)
    ensures |whole| == |whole * part| + |whole - part|
  {
    assert whole == whole * part + (whole - part);
  }

  /** Nothing is lost or counted twice, overall and suite by suite. */
  lemma LedgerBalances(l: Ledger, roster: Roster, delivered: Delivered, baseline: string, rounds: seq<Round>)
    requires IsLedger(l, roster, delivered, baseline, rounds)
    ensures l.planned == l.resolved + l.unresolved
    ensures l.resolved == l.byBaseline + l.byRecovery && l.byRecovery >= 0
    ensures l.byBaseline == CountOf(l.byTree, baseline)
    ensures l.planned == PlannedOf(l.bySuite) && l.resolved == ResolvedOf(l.bySuite) &&
      l.unresolved == UnresolvedOf(l.bySuite)
    ensures forall i :: 0 <= i < |l.bySuite| ==> l.bySuite[i].planned == l.bySuite[i].resolved + l.bySuite[i].unresolved
    ensures 0.0 <= l.completion <= 1.0
  {
    LedgerTotals(l, roster, delivered, baseline, rounds);
    LedgerColumns(l, roster, delivered, baseline, rounds);
    forall i | 0 <= i < |l.bySuite| ensures l.bySuite[i].planned == l.bySuite[i].resolved + l.bySuite[i].unresolved {
      assert IsSuiteRow(l.bySuite[i], roster, delivered);
      RowBalances(l.bySuite[i], roster, delivered);
    }
  }

  /** Every share of a ledger amounts to the number it is the share of. */
  lemma LedgerShares(l: Ledger, roster: Roster, delivered: Delivered, baseline: string, rounds: seq<Round>)
    requires IsLedger(l, roster, delivered, baseline, rounds)
    ensures PartOf(l.completion, l.planned) == l.resolved as real
    ensures PartOf(l.recoveryShare, l.planned) == (if roster == map[] then 0 else l.byRecovery) as real
    ensures l.recovery.Some? ==>
      PartOf(l.recovery.value.rate, l.recovery.value.needed) == l.recovery.value.recovered as real
    ensures l.recovery.Some? ==> forall i :: 0 <= i < |l.recovery.value.perRound| ==>
      PartOf(l.recovery.value.perRound[i].rate, l.recovery.value.perRound[i].attempted)
        == l.recovery.value.perRound[i].recovered as real
  {
    LedgerTotals(l, roster, delivered, baseline, rounds);
    assert |roster| == 0 ==> roster == map[];
    ShareAmounts(l.resolved, l.planned);
    if roster != map[] {
      PartOfRatio(l.byRecovery as real, |roster|);
    }
    if l.recovery.Some? {
      RecoveryShares(l.recovery.value, rounds, delivered, roster);
    }
    hide PartOf, Share, IsRecovery, IsTally, Named;
    assert PartOf(0.0, l.planned) == 0.0 by {
      NoPart(l.planned);
    }
  }

  lemma NoPart(n: nat)
    ensures PartOf(0.0, n) == 0.0
  {
  }

  lemma ShareAmounts(part: nat, whole: nat)
    requires part <= whole
    ensures PartOf(Share(part, whole), whole) == part as real
  {
    if whole == 0 {
      NoPart(whole);
    } else {
      PartOfRatio(part as real, whole);
    }
  }

  lemma RecoveryShares(r: Recovery, rounds: seq<Round>, delivered: Delivered, roster: Roster)
    requires IsRecovery(r, rounds, delivered, roster)
    ensures PartOf(r.rate, r.needed) == r.recovered as real
    ensures forall i :: 0 <= i < |r.perRound| ==>
      PartOf(r.perRound[i].rate, r.perRound[i].attempted) == r.perRound[i].recovered as real
  {
    SubsetSize(Attempted(rounds) * delivered.Keys, Attempted(rounds));
    ShareAmounts(r.recovered, r.needed);
    hide PartOf, Share, Attempted;
    forall i | 0 <= i < |r.perRound|
      ensures PartOf(r.perRound[i].rate, r.perRound[i].attempted) == r.perRound[i].recovered as real
    {
      assert IsRoundRow(r.perRound[i], rounds[i], delivered);
      SubsetSize(rounds[i].attempted * delivered.Keys, rounds[i].attempted);
      ShareAmounts(r.perRound[i].recovered, r.perRound[i].attempted);
    }
  }

  lemma RowBalances(row: SuiteRow, roster: Roster, delivered: Delivered)
    requires IsSuiteRow(row, roster, delivered)
    ensures row.planned == row.resolved + row.unresolved
  {
    var cases := Named(roster.Keys, SuiteOf, row.suite);
    assert Named(roster.Keys * delivered.Keys, SuiteOf, row.suite) == cases * delivered.Keys;
    assert Named(roster.Keys - delivered.Keys, SuiteOf, row.suite) == cases - delivered.Keys;
    SplitSizes(cases, delivered.Keys);
  }

  lemma LedgerTotals(l: Ledger, roster: Roster, delivered: Delivered, baseline: string, rounds: seq<Round>)
    requires IsLedger(l, roster, delivered, baseline, rounds)
    ensures l.planned == l.resolved + l.unresolved
    ensures l.resolved == l.byBaseline + l.byRecovery && l.byRecovery >= 0
    ensures l.byBaseline == CountOf(l.byTree, baseline)
    ensures 0.0 <= l.completion <= 1.0
  {
    SplitSizes(roster.Keys, delivered.Keys);
    TallyCounts(l.byTree, roster.Keys * delivered.Keys, TreeOf(delivered), baseline);
    SubsetSize(Named(roster.Keys * delivered.Keys, TreeOf(delivered), baseline), roster.Keys * delivered.Keys);
    ShareBounds(l.resolved, l.planned);
    hide IsTally, IsSuiteRow, IsRecovery, Named, TreeOf, Share, Distinct, SuiteNames, CountOf;
  }

  lemma ShareBounds(part: nat, whole: nat)
    requires part <= whole
    ensures 0.0 <= Share(part, whole) <= 1.0
    ensures Share(part, whole) == 1.0 <==> part == whole > 0
  {
  }

  lemma LedgerColumns(l: Ledger, roster: Roster, delivered: Delivered, baseline: string, rounds: seq<Round>)
    requires IsLedger(l, roster, delivered, baseline, rounds)
    ensures l.planned == PlannedOf(l.bySuite) && l.resolved == ResolvedOf(l.bySuite) &&
      l.unresolved == UnresolvedOf(l.bySuite)
  {
    hide IsTally, IsRecovery, Named, Share, TreeOf, Distinct, Sum;
    var rows := l.bySuite;
    forall key | key in roster.Keys ensures SuiteOf(key) in SuiteNames(rows) {
    }
    forall i | 0 <= i < |rows|
      ensures && rows[i].planned == |Named(roster.Keys, SuiteOf, rows[i].suite)|
              && rows[i].resolved == |Named(roster.Keys * delivered.Keys, SuiteOf, rows[i].suite)|
              && rows[i].unresolved == |Named(roster.Keys - delivered.Keys, SuiteOf, rows[i].suite)|
    {
      assert IsSuiteRow(rows[i], roster, delivered);
    }
    ColumnAddsUp(rows, (row: SuiteRow) => row.planned, roster.Keys);
    ColumnAddsUp(rows, (row: SuiteRow) => row.resolved, roster.Keys * delivered.Keys);
    ColumnAddsUp(rows, (row: SuiteRow) => row.unresolved, roster.Keys - delivered.Keys);
    NamesAddUp(roster.Keys, SuiteOf, SuiteNames(rows));
    NamesAddUp(roster.Keys * delivered.Keys, SuiteOf, SuiteNames(rows));
    NamesAddUp(roster.Keys - delivered.Keys, SuiteOf, SuiteNames(rows));
  }

  /** Every unresolved case was either attempted in vain or never attempted, and the rounds' numbers add up. */
  lemma RecoveryBalances(l: Ledger, roster: Roster, delivered: Delivered, baseline: string, rounds: seq<Round>)
    requires IsLedger(l, roster, delivered, baseline, rounds) && AllPlanned(rounds, roster) && l.recovery.Some?
    ensures var r := l.recovery.value;
      && l.unresolvedCases == r.stillMissing + r.neverAttempted && r.stillMissing !! r.neverAttempted
      && l.unresolved == |r.stillMissing| + |r.neverAttempted|
      && r.needed == r.recovered + |r.stillMissing|
      && 0.0 <= r.rate <= 1.0 && r.moreThanOneRound <= r.needed
      && forall i :: 0 <= i < |r.perRound| ==>
         r.perRound[i].attempted == r.perRound[i].recovered + r.perRound[i].missing
  {
    var r := l.recovery.value;
    assert IsRecovery(r, rounds, delivered, roster) && l.unresolvedCases == roster.Keys - delivered.Keys;
    assert l.unresolved == |l.unresolvedCases|;
    hide *;
    UnresolvedSplit(r, roster, delivered, rounds);
    RecoveryTotals(r, roster, delivered, rounds);
    RoundsBalance(r, roster, delivered, rounds);
  }

  lemma UnresolvedSplit(r: Recovery, roster: Roster, delivered: Delivered, rounds: seq<Round>)
    requires IsRecovery(r, rounds, delivered, roster) && AllPlanned(rounds, roster)
    ensures var unresolved := roster.Keys - delivered.Keys;
      && unresolved == r.stillMissing + r.neverAttempted && r.stillMissing !! r.neverAttempted
      && |unresolved| == |r.stillMissing| + |r.neverAttempted|
  {
    AttemptedArePlanned(rounds, roster);
    MissingSplit(roster.Keys, delivered.Keys, Attempted(rounds));
    hide *;
  }

  lemma MissingSplit(planned: set<Case>, delivered: set<Case>, attempted: set<Case>)
    requires attempted <= planned
    ensures planned - delivered == (attempted - delivered) + (planned - delivered - attempted)
    ensures (attempted - delivered) !! (planned - delivered - attempted)
    ensures |planned - delivered| == |attempted - delivered| + |planned - delivered - attempted|
  {
    var inVain, never := attempted - delivered, planned - delivered - attempted;
    assert inVain * never == {};
    assert planned - delivered == inVain + never;
  }

  lemma RecoveryTotals(r: Recovery, roster: Roster, delivered: Delivered, rounds: seq<Round>)
    requires IsRecovery(r, rounds, delivered, roster)
    ensures r.needed == r.recovered + |r.stillMissing|
    ensures 0.0 <= r.rate <= 1.0 && r.moreThanOneRound <= r.needed
  {
    var attempted := Attempted(rounds);
    SplitSizes(attempted, delivered.Keys);
    ShareBounds(r.recovered, r.needed);
    if |rounds| > 1 {
      LaterRounds(rounds);
      SubsetSize(rounds[0].attempted * Attempted(rounds[1..]), attempted);
    }
    hide Attempted, Share, AreRoundRows;
  }

  lemma RoundsBalance(r: Recovery, roster: Roster, delivered: Delivered, rounds: seq<Round>)
    requires IsRecovery(r, rounds, delivered, roster)
    ensures forall i :: 0 <= i < |r.perRound| ==>
      r.perRound[i].attempted == r.perRound[i].recovered + r.perRound[i].missing
  {
    hide Attempted, Share;
    forall i | 0 <= i < |rounds| ensures r.perRound[i].attempted == r.perRound[i].recovered + r.perRound[i].missing {
      assert IsRoundRow(r.perRound[i], rounds[i], delivered);
      SplitSizes(rounds[i].attempted, delivered.Keys);
    }
  }

  lemma AttemptedArePlanned(rounds: seq<Round>, roster: Roster)
    requires AllPlanned(rounds, roster)
    ensures Attempted(rounds) <= roster.Keys
  {
    forall key | key in Attempted(rounds) ensures key in roster.Keys {
      var i :| 0 <= i < |rounds| && key in rounds[i].attempted;
    }
  }

  lemma LaterRounds(rounds: seq<Round>)
    requires |rounds| > 1
    ensures rounds[0].attempted * Attempted(rounds[1..]) <= Attempted(rounds)
  {
    forall key | key in rounds[0].attempted ensures key in Attempted(rounds) {
      assert 0 <= 0 < |rounds| && key in rounds[0].attempted;
    }
  }

  // Cases that took several rounds.

  /** Two different rounds attempted the case. */
  ghost predicate InTwoRounds(rounds: seq<Round>, key: Case) {
    exists i, j :: 0 <= i < j < |rounds| && key in rounds[i].attempted && key in rounds[j].attempted
  }

  ghost function SeveralRounds(rounds: seq<Round>): set<Case> {
    set key | key in Attempted(rounds) && InTwoRounds(rounds, key)
  }

  /** The cases counted: those of the first round that a later one attempted again. */
  ghost function FirstAndLater(rounds: seq<Round>): set<Case> {
    if |rounds| > 1 then rounds[0].attempted * Attempted(rounds[1..]) else {}
  }

  lemma FirstAndLaterAre(rounds: seq<Round>)
    ensures FirstAndLater(rounds) <= SeveralRounds(rounds)
    ensures forall key :: key in FirstAndLater(rounds) <==>
      key in SeveralRounds(rounds) && key in rounds[0].attempted
  {
    if |rounds| > 1 {
      forall key | key in FirstAndLater(rounds) ensures key in SeveralRounds(rounds) {
        var j :| 0 <= j < |rounds[1..]| && key in rounds[1..][j].attempted;
        assert key in rounds[0].attempted && key in rounds[j + 1].attempted;
      }
      forall key | key in SeveralRounds(rounds) && key in rounds[0].attempted ensures key in FirstAndLater(rounds) {
        var i, j :| 0 <= i < j < |rounds| && key in rounds[i].attempted && key in rounds[j].attempted;
        assert rounds[1..][j - 1] == rounds[j];
      }
    }
  }

  /**
   * The count of cases that required more than one round never exceeds the cases several rounds attempted, and
   * equals it if and only if each of these was among the first round's.
   */
  lemma SeveralRoundsIff(r: Recovery, rounds: seq<Round>, delivered: Delivered, roster: Roster)
    requires IsRecovery(r, rounds, delivered, roster)
    ensures r.moreThanOneRound <= |SeveralRounds(rounds)|
    ensures r.moreThanOneRound == |SeveralRounds(rounds)| <==>
      forall key :: InTwoRounds(rounds, key) ==> key in rounds[0].attempted
  {
    FirstAndLaterAre(rounds);
    assert r.moreThanOneRound == |FirstAndLater(rounds)|;
    SubsetSize(FirstAndLater(rounds), SeveralRounds(rounds));
    forall key | InTwoRounds(rounds, key) ensures key in SeveralRounds(rounds) {
    }
    hide FirstAndLater, IsRecovery, InTwoRounds, Attempted;
    if FirstAndLater(rounds) != SeveralRounds(rounds) {
      var key :| key in SeveralRounds(rounds) && key !in FirstAndLater(rounds);
      ProperSubsetSize(FirstAndLater(rounds), SeveralRounds(rounds), key);
    }
  }

  lemma ProperSubsetSize<T>(part: set<T>, whole: set<T>, x: T)
    requires part <= whole && x in whole && x !in part
    ensures |part| < |whole|
  {
    SubsetSize(part, whole - {x});
  }

  /** A case attempted in the second and third round alone is not counted. */
  lemma LaterRoundsAreMissed(key: Case)
    ensures var rounds := [Round("first", {}), Round("second", {key}), Round("third", {key})];
      InTwoRounds(rounds, key) && FirstAndLater(rounds) == {}
  {
    var rounds := [Round("first", {}), Round("second", {key}), Round("third", {key})];
    assert key in rounds[1].attempted && key in rounds[2].attempted;
  }

  // Trees.

  /** The planned cases the baseline tree itself has. */
  ghost function Own(roster: Roster, root: Root): set<Case> {
    set key | key in roster && Has(root, key)
  }

  /** The planned cases credited to a name. */
  ghost function Credited(roster: Roster, delivered: Delivered, name: string): set<Case> {
    Named(roster.Keys * delivered.Keys, TreeOf(delivered), name)
  }

  lemma {:induction false} HasFirstRoot(roots: seq<Root>, key: Case) returns (i: nat)
    requires exists j :: 0 <= j < |roots| && Has(roots[j], key)
    ensures FirstRootWith(roots, key, i)
  {
    hide Has;
    var n := |roots| - 1;
    if exists j :: 0 <= j < n && Has(roots[j], key) {
      var j :| 0 <= j < n && Has(roots[j], key);
      assert Has(roots[..n][j], key);
      i := HasFirstRoot(roots[..n], key);
      assert forall j :: 0 <= j < i ==> !Has(roots[..n][j], key);
      assert forall j :: 0 <= j < i ==> roots[..n][j] == roots[j];
    } else {
      i := n;
    }
  }

  /** A case that the baseline lacks and a recovery tree of the baseline's own name delivers first. */
  ghost predicate Misattributed(roster: Roster, roots: seq<Root>, key: Case, i: nat) {
    key in roster && 0 < i && FirstRootWith(roots, key, i) && roots[i].name == roots[0].name
  }

  /**
   * The baseline is credited with exactly the planned cases its own tree has,
   * whatever recovery trees follow and in whatever order, if and only if no
   * case it lacks is first found in a later tree that carries its name.
   */
  lemma BaselineCreditIsOwn(roster: Roster, roots: seq<Root>, delivered: Delivered)
    requires roots != [] && IsDelivered(delivered, roots)
    ensures Own(roster, roots[0]) <= Credited(roster, delivered, roots[0].name)
    ensures Credited(roster, delivered, roots[0].name) == Own(roster, roots[0])
       <==> forall key, i: nat :: !Misattributed(roster, roots, key, i)
  {
    hide Has;
    var own, credited := Own(roster, roots[0]), Credited(roster, delivered, roots[0].name);
    forall key | key in own ensures key in credited {
      assert FirstRootWith(roots, key, 0);
    }
    forall key, i: nat | Misattributed(roster, roots, key, i) ensures key in credited && key !in own {
    }
    forall key | key in credited && key !in own ensures exists i: nat :: Misattributed(roster, roots, key, i) {
      var i := HasFirstRoot(roots, key);
      assert Misattributed(roster, roots, key, i);
    }
  }

  /** With distinct tree names the baseline's credit does not depend on the recovery trees. */
  lemma BaselineCreditIsFixed(roster: Roster, roots: seq<Root>, delivered: Delivered)
    requires roots != [] && IsDelivered(delivered, roots)
    requires forall i :: 0 < i < |roots| ==> roots[i].name != roots[0].name
    ensures Credited(roster, delivered, roots[0].name) == Own(roster, roots[0])
  {
    hide Has, Credited, Own;
    forall key, i: nat ensures !Misattributed(roster, roots, key, i) {
    }
    BaselineCreditIsOwn(roster, roots, delivered);
  }

  // What the names alone decide.

  ghost function NamesOf(roots: seq<Root>): (names: seq<string>)
    ensures |names| == |roots| && forall i :: 0 <= i < |roots| ==> names[i] == roots[i].name
  {
    seq(|roots|, i requires 0 <= i < |roots| => roots[i].name)
  }

  /** Whatever trees carry these names, the first is credited with exactly its own planned cases. */
  ghost predicate AlwaysOwn(roster: Roster, names: seq<string>)
    requires names != []
  {
    forall roots, delivered :: NamesOf(roots) == names && IsDelivered(delivered, roots) ==>
      Credited(roster, delivered, names[0]) == Own(roster, roots[0])
  }

  /** A prediction for the case is attributed to it. */
  predicate Deliverable(key: Case) {
    BenchmarkOf(key.id) == Some(key.suite)
  }

  /**
   * The names decide: every set of trees under them credits the baseline with exactly its own cases if and only
   * if no later name repeats the first, unless no planned case can be delivered at all.
   */
  lemma NamesDecideCredit(roster: Roster, names: seq<string>)
    requires names != []
    ensures AlwaysOwn(roster, names) <==>
      || (forall i :: 0 < i < |names| ==> names[i] != names[0])
      || (forall key :: key in roster ==> !Deliverable(key))
  {
    if i: nat, key :| 0 < i < |names| && names[i] == names[0] && key in roster && Deliverable(key) {
      hide Deliverable, Own, Credited, IsDelivered;
      LateTreeTakesCredit(roster, names, i, key);
    } else {
      forall roots, delivered | NamesOf(roots) == names && IsDelivered(delivered, roots)
        ensures Credited(roster, delivered, names[0]) == Own(roster, roots[0])
      {
        hide Deliverable, Own, Credited, IsDelivered;
        if forall i :: 0 < i < |names| ==> names[i] != names[0] {
          BaselineCreditIsFixed(roster, roots, delivered);
        } else {
          NothingToCredit(roster, roots, delivered);
        }
      }
    }
  }

  lemma NothingToCredit(roster: Roster, roots: seq<Root>, delivered: Delivered)
    requires roots != [] && IsDelivered(delivered, roots)
    requires forall key :: key in roster ==> !Deliverable(key)
    ensures Credited(roster, delivered, roots[0].name) == Own(roster, roots[0])
  {
    forall key | key in roster ensures key !in delivered && !Has(roots[0], key) {
      assert forall root :: Has(root, key) ==> Deliverable(key);
    }
    hide Has, Deliverable;
  }

  /** Trees under the given names of which only the one at `i` holds a prediction, for one case. */
  ghost function LateTrees(names: seq<string>, i: nat, key: Case): (roots: seq<Root>)
    ensures |roots| == |names|
    ensures forall j :: 0 <= j < |names| ==>
      roots[j] == Root(names[j], if j == i then [Prediction(key.id, false)] else [])
  {
    seq(|names|, j requires 0 <= j < |names| => Root(names[j], if j == i then [Prediction(key.id, false)] else []))
  }

  /** A later tree named like the baseline takes the baseline's credit for a case that the baseline lacks. */
  lemma LateTreeTakesCredit(roster: Roster, names: seq<string>, i: nat, key: Case)
    requires 0 < i < |names| && names[i] == names[0] && key in roster && Deliverable(key)
    ensures var roots, delivered: Delivered := LateTrees(names, i, key), map[key := names[0]];
      && NamesOf(roots) == names && IsDelivered(delivered, roots)
      && Own(roster, roots[0]) == {} && Credited(roster, delivered, names[0]) == {key}
  {
    var roots := LateTrees(names, i, key);
    forall j, other | 0 <= j < |roots| ensures Has(roots[j], other) <==> j == i && other == key {
      OnlyPrediction(roots[j], key, j == i, other);
    }
    hide Has, LateTrees;
    assert FirstRootWith(roots, key, i);
  }

  lemma OnlyPrediction(root: Root, key: Case, holds: bool, other: Case)
    requires Deliverable(key) && root.predictions == if holds then [Prediction(key.id, false)] else []
    ensures Has(root, other) <==> holds && other == key
  {
    if holds {
      assert root.predictions[0] in root.predictions;
    }
  }

  const LATE_CASE := Case("omnidocbench", "omnidocbench-1")

  /** The smallest such input: two trees of one name, the first of them empty. */
  lemma SameNameTakesCredit(roster: Roster)
    requires LATE_CASE in roster
    ensures var roots, delivered: Delivered := LateTrees(["run", "run"], 1, LATE_CASE), map[LATE_CASE := "run"];
      && IsDelivered(delivered, roots)
      && Own(roster, roots[0]) == {} && Credited(roster, delivered, "run") == {LATE_CASE}
  {
    assert Deliverable(LATE_CASE) by {
      assert BENCHMARKS[0] == "omnidocbench" <= LATE_CASE.id;
    }
    hide Deliverable, Own, Credited, IsDelivered;
    LateTreeTakesCredit(roster, ["run", "run"], 1, LATE_CASE);
  }

  /** More trees, in any order, deliver no fewer cases; the same trees in another order deliver the same ones. */
  lemma MoreTreesDeliverMore(fewer: seq<Root>, more: seq<Root>, before: Delivered, after: Delivered)
    requires IsDelivered(before, fewer) && IsDelivered(after, more)
    requires forall root :: root in fewer ==> root in more
    ensures before.Keys <= after.Keys
    ensures (forall root :: root in more ==> root in fewer) ==> before.Keys == after.Keys
  {
    hide Has;
    KeysIncluded(fewer, more, before, after);
    if forall root :: root in more ==> root in fewer {
      KeysIncluded(more, fewer, after, before);
    }
  }

  lemma KeysIncluded(fewer: seq<Root>, more: seq<Root>, before: Delivered, after: Delivered)
    requires IsDelivered(before, fewer) && IsDelivered(after, more)
    requires forall root :: root in fewer ==> root in more
    ensures before.Keys <= after.Keys
  {
    hide Has, FirstRootWith;
    forall key | key in before.Keys ensures key in after.Keys {
      var i :| 0 <= i < |fewer| && Has(fewer[i], key);
      assert fewer[i] in more;
      var j :| 0 <= j < |more| && more[j] == fewer[i];
      assert Has(more[j], key);
    }
  }

  /**
   * Two ledgers over the same roster and baseline tree, the second with at
   * least the first one's recovery trees: no case is lost, and with tree names
   * distinct from the baseline's the whole gain is credited to recovery.
   */
  lemma AddingTreesOnlyAdds(roster: Roster, baseline: Root, fewer: seq<Root>, more: seq<Root>,
                            before: Delivered, after: Delivered, rounds: seq<Round>, x: Ledger, y: Ledger)
    requires IsDelivered(before, [baseline] + fewer) && IsDelivered(after, [baseline] + more)
    requires forall root :: root in fewer ==> root in more
    requires forall root :: root in more ==> root.name != baseline.name
    requires IsLedger(x, roster, before, baseline.name, rounds) && IsLedger(y, roster, after, baseline.name, rounds)
    ensures y.resolved >= x.resolved && y.unresolvedCases <= x.unresolvedCases
    ensures y.byBaseline == x.byBaseline
    ensures y.byRecovery - x.byRecovery == y.resolved - x.resolved
  {
    hide *;
    MoreTreesBehind(baseline, fewer, more, before, after);
    CreditBehind(roster, baseline, fewer, before);
    CreditBehind(roster, baseline, more, after);
    SubsetSize(roster.Keys * before.Keys, roster.Keys * after.Keys);
    CreditIs(x, roster, before, baseline.name, rounds);
    CreditIs(y, roster, after, baseline.name, rounds);
  }

  lemma MoreTreesBehind(baseline: Root, fewer: seq<Root>, more: seq<Root>, before: Delivered, after: Delivered)
    requires IsDelivered(before, [baseline] + fewer) && IsDelivered(after, [baseline] + more)
    requires forall root :: root in fewer ==> root in more
    ensures before.Keys <= after.Keys
  {
    hide *;
    forall root | root in [baseline] + fewer ensures root in [baseline] + more {
    }
    MoreTreesDeliverMore([baseline] + fewer, [baseline] + more, before, after);
  }

  lemma CreditBehind(roster: Roster, baseline: Root, roots: seq<Root>, delivered: Delivered)
    requires IsDelivered(delivered, [baseline] + roots)
    requires forall root :: root in roots ==> root.name != baseline.name
    ensures Credited(roster, delivered, baseline.name) == Own(roster, baseline)
  {
    hide *;
    var all := [baseline] + roots;
    forall i | 0 < i < |all| ensures all[i].name != all[0].name {
      assert all[i] == roots[i - 1];
    }
    BaselineCreditIsFixed(roster, all, delivered);
  }

  lemma CreditIs(l: Ledger, roster: Roster, delivered: Delivered, baseline: string, rounds: seq<Round>)
    requires IsLedger(l, roster, delivered, baseline, rounds)
    ensures l.byBaseline == |Credited(roster, delivered, baseline)|
    ensures l.resolved == |roster.Keys * delivered.Keys| && l.byRecovery == l.resolved - l.byBaseline
    ensures l.unresolvedCases == roster.Keys - delivered.Keys
  {
  }
}
