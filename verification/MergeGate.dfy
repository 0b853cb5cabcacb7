/**
 * The merge gate: a candidate run is compared with its baseline case by case
 * and metric by metric, and what a chain of passing gates guarantees.
 */
module MergeGate {
  import opened Sequences
  import opened Sorting

  /** A score record; metrics that are not finite numbers are absent, and so is a metrics field that is no mapping. */
  datatype Record = Record(caseId: Option<string>, metrics: Metrics, hardFailures: set<string>)
  datatype Metrics = NoMetrics | Metrics(values: map<string, real>)

  type Run = map<string, Record>

  datatype Error = MissingCaseId | DuplicateCaseId(id: string) | BadTolerance | BadFailureRate | EmptyBaseline

  datatype Reason =
    | MissingCases
    | UnexpectedCases
    | QualityRegression(metric: string)
    | SchemaInvalid(id: string)
    | NumberRegression(id: string)
    | UnsupportedIncrease(id: string)
    | InfraFailureRate
    | CostNeedsApproval

  datatype Growth = Unknown | Finite(share: real) | Infinite

  datatype Decision = Decision(
    passed: bool,
    approvalRequired: bool,
    comparedCaseCount: nat,
    reasons: seq<Reason>,
    regressions: map<string, real>,
    costGrowth: Growth,
    infraFailureRate: real)

  const HIGHER_IS_BETTER := [
    "normalized_edit_similarity", "numeric_exact_match", "date_unit_exact_match", "reading_order_pair_accuracy",
    "table_teds", "table_cell_exactness", "formula_edit_score", "heading_tree_score", "provenance_coverage",
    "rag_recall_at_10", "rag_mrr", "rag_ndcg_at_10", "rag_answer_groundedness", "router_first_pass_acceptance_rate",
    "router_escalation_recall", "router_quality_after_escalation"]

  const LOWER_IS_BETTER := [
    "cer", "wer", "unsupported_claim_rate", "unsupported_summary_claim_rate", "repetition_rate",
    "router_false_escalation_rate", "router_route_regret"]

  predicate HigherIsBetter(name: string) {
    name in HIGHER_IS_BETTER
  }

  predicate LowerIsBetter(name: string) {
    name in LOWER_IS_BETTER
  }

  const INFRA_FAILURES := {"crash", "oom", "timeout", "provider_crash", "gpu_oom", "provider_timeout"}

  const NUMBERS := "numeric_exact_match"
  const UNSUPPORTED := "unsupported_claim_rate"
  const VALIDITY := "schema_validity"
  const COST := "estimated_cost_usd"

  // Reading runs.

  function Metric(record: Record, name: string): Option<real> {
    if record.metrics.Metrics? && name in record.metrics.values then Some(record.metrics.values[name]) else None
  }

  ghost predicate NamesDistinctCases(records: seq<Record>) {
    && (forall i :: 0 <= i < |records| ==> records[i].caseId.Some? && records[i].caseId.value != "")
    && (forall i, j :: 0 <= i < j < |records| ==> records[i].caseId != records[j].caseId)
  }

  /** The records by their case; refused unless every record names a case of its own. */
  method RecordsByCase(records: seq<Record>) returns (result: Result<Run, Error>)
    ensures result.Ok? <==> NamesDistinctCases(records)
    ensures result.Ok? ==> IsRun(result.value, records)
    ensures result.Err? ==> result.error.MissingCaseId? || result.error.DuplicateCaseId?
  {
    var run: Run := map[];
    for i := 0 to |records|
      invariant NamesDistinctCases(records[..i])
      invariant forall id, record :: id in run && run[id] == record <==>
        record in records[..i] && record.caseId == Some(id)
    {
      var record := records[i];
      assert records[..i + 1] == records[..i] + [record];
      if record.caseId.None? || record.caseId.value == "" {
        return Err(MissingCaseId);
      }
      var id := record.caseId.value;
      if id in run {
        assert run[id] in records[..i];
        return Err(DuplicateCaseId(id));
      }
      run := run[id := record];
    }
    assert records[..|records|] == records;
    result := Ok(run);
  }

  function Picked(run: Run, ids: seq<string>): (records: seq<Record>)
    requires forall id :: id in ids ==> id in run
    ensures |records| == |ids|
  {
    seq(|ids|, i requires 0 <= i < |ids| => run[ids[i]])
  }

  function SumOf(values: seq<real>): real {
    if values == [] then 0.0 else SumOf(values[..|values| - 1]) + values[|values| - 1]
  }

  /** The values of a metric among records that have it. */
  function ValuesOf(records: seq<Record>, name: string): seq<real> {
    if records == [] then []
    else
      var n := |records| - 1;
      var last := Metric(records[n], name);
      ValuesOf(records[..n], name) + if last.Some? then [last.value] else []
  }

  function Mean(values: seq<real>): Option<real> {
    if values == [] then None else Some(SumOf(values) / |values| as real)
  }

  method Average(records: seq<Record>, name: string) returns (average: Option<real>)
    ensures average == Mean(ValuesOf(records, name))
  {
    var values: seq<real> := [];
    for i := 0 to |records|
      invariant values == ValuesOf(records[..i], name)
    {
      assert records[..i + 1][..i] == records[..i];
      var value := Metric(records[i], name);
      if value.Some? {
        values := values + [value.value];
      }
    }
    assert records[..|records|] == records;
    average := Mean(values);
  }

  predicate FailedOnInfra(record: Record) {
    record.hardFailures * INFRA_FAILURES != {}
  }

  function FailedCount(records: seq<Record>): (count: nat)
    ensures count <= |records|
    ensures count == 0 <==> forall record :: record in records ==> !FailedOnInfra(record)
  {
    if records == [] then 0
    else
      var n := |records| - 1;
      assert records == records[..n] + [records[n]];
      FailedCount(records[..n]) + if FailedOnInfra(records[n]) then 1 else 0
  }

  function FailureRate(records: seq<Record>): real {
    if records == [] then 1.0 else FailedCount(records) as real / |records| as real
  }

  method InfraRate(records: seq<Record>) returns (rate: real)
    ensures rate == FailureRate(records)
  {
    if records == [] {
      return 1.0;
    }
    var failed := 0;
    for i := 0 to |records|
      invariant failed == FailedCount(records[..i])
    {
      assert records[..i + 1][..i] == records[..i];
      if FailedOnInfra(records[i]) {
        failed := failed + 1;
      }
    }
    assert records[..|records|] == records;
    rate := failed as real / |records| as real;
  }

  // What the gate promises.

  /** The records of the given cases, in the order of their names. */
  ghost function RecordsOf(run: Run, cases: set<string>): (records: seq<Record>)
    requires cases <= run.Keys
    ensures |records| == |cases|
  {
    DistinctSize(SortedListing(cases));
    Picked(run, SortedListing(cases))
  }

  ghost function AverageOver(run: Run, cases: set<string>, name: string): Option<real>
    requires cases <= run.Keys
  {
    Mean(ValuesOf(RecordsOf(run, cases), name))
  }

  /** How much worse the second average is than the first, where both are known. */
  function LossBetween(before: Option<real>, after: Option<real>, higherIsBetter: bool): Option<real> {
    if before.None? || after.None? then None
    else Some(if higherIsBetter then before.value - after.value else after.value - before.value)
  }

  /** The average over all cases of a run. */
  ghost function AverageOf(run: Run, name: string): Option<real> {
    AverageOver(run, run.Keys, name)
  }

  ghost function Regression(baseline: Run, candidate: Run, name: string): Option<real> {
    var cases := baseline.Keys * candidate.Keys;
    LossBetween(AverageOver(baseline, cases, name), AverageOver(candidate, cases, name), HigherIsBetter(name))
  }

  predicate Above(loss: Option<real>, tolerance: real) {
    loss.Some? && loss.value > tolerance
  }

  ghost predicate Regresses(baseline: Run, candidate: Run, tolerance: real, name: string) {
    (HigherIsBetter(name) || LowerIsBetter(name)) && Above(Regression(baseline, candidate, name), tolerance)
  }

  /** Both values are known and the second is smaller. */
  predicate Falls(before: Option<real>, after: Option<real>) {
    before.Some? && after.Some? && after.value < before.value
  }

  ghost function CostGrowth(baseline: Run, candidate: Run): Growth {
    var cases := baseline.Keys * candidate.Keys;
    GrowthOf(AverageOver(baseline, cases, COST), AverageOver(candidate, cases, COST))
  }

  function GrowthOf(before: Option<real>, after: Option<real>): Growth {
    if before.None? || after.None? then Unknown
    else if before.value == 0.0 then if after.value == 0.0 then Finite(0.0) else Infinite
    else Finite((after.value - before.value) / before.value)
  }

  predicate Expensive(growth: Growth) {
    growth.Infinite? || (growth.Finite? && growth.share > 0.10)
  }

  /** The reasons that one shared case gives. */
  predicate CaseGives(reason: Reason, id: string, before: Record, after: Record) {
    match reason
    case SchemaInvalid(other) => other == id && (before.metrics.NoMetrics? || Metric(after, VALIDITY) != Some(1.0))
    case NumberRegression(other) => other == id && Falls(Metric(before, NUMBERS), Metric(after, NUMBERS))
    case UnsupportedIncrease(other) => other == id && Falls(Metric(after, UNSUPPORTED), Metric(before, UNSUPPORTED))
    case _ => false
  }

  ghost predicate SomeCaseGives(reason: Reason, baseline: Run, candidate: Run) {
    exists id :: id in baseline.Keys * candidate.Keys && CaseGives(reason, id, baseline[id], candidate[id])
  }

  /** When a reason is due. */
  ghost predicate Due(reason: Reason, baseline: Run, candidate: Run, tolerance: real, maxRate: real, approved: bool) {
    var cases := baseline.Keys * candidate.Keys;
    match reason
    case MissingCases => !(baseline.Keys <= candidate.Keys)
    case UnexpectedCases => !(candidate.Keys <= baseline.Keys)
    case QualityRegression(metric) => Regresses(baseline, candidate, tolerance, metric)
    case InfraFailureRate => FailureRate(RecordsOf(candidate, cases)) > maxRate
    case CostNeedsApproval => !approved && Expensive(CostGrowth(baseline, candidate))
    case _ => SomeCaseGives(reason, baseline, candidate)
  }

  /** Nothing speaks against the candidate. */
  ghost predicate Passes(baseline: Run, candidate: Run, tolerance: real, maxRate: real, approved: bool) {
    forall reason :: !Due(reason, baseline, candidate, tolerance, maxRate, approved)
  }

  // The gate.

  function LossOf(before: seq<Record>, after: seq<Record>, name: string, higherIsBetter: bool): Option<real> {
    LossBetween(Mean(ValuesOf(before, name)), Mean(ValuesOf(after, name)), higherIsBetter)
  }

  /** One pass over a list of metrics that share a direction. */
  method CompareMetrics(names: seq<string>, higherIsBetter: bool, before: seq<Record>, after: seq<Record>,
                        tolerance: real, earlierReasons: seq<Reason>, earlierRegressions: map<string, real>)
      returns (reasons: seq<Reason>, regressions: map<string, real>)
    requires forall name :: name in names ==> name !in earlierRegressions
    ensures forall reason :: reason in reasons <==>
      || reason in earlierReasons
      || (reason.QualityRegression? && reason.metric in names
          && Above(LossOf(before, after, reason.metric, higherIsBetter), tolerance))
    ensures forall name :: name in regressions <==>
      || name in earlierRegressions
      || (name in names && Above(LossOf(before, after, name, higherIsBetter), tolerance))
    ensures forall name :: name in earlierRegressions ==>
      name in regressions && regressions[name] == earlierRegressions[name]
    ensures forall name :: name in regressions && name in names ==>
      LossOf(before, after, name, higherIsBetter) == Some(regressions[name])
  {
    reasons, regressions := earlierReasons, earlierRegressions;
    assert Compared(reasons, regressions, names[..0], higherIsBetter, before, after, tolerance, earlierReasons,
                    earlierRegressions);
    hide Compared, LossOf, Above, LossBetween, Mean, ValuesOf;
    for i := 0 to |names|
      invariant Compared(reasons, regressions, names[..i], higherIsBetter, before, after, tolerance, earlierReasons,
                         earlierRegressions)
    {
      var name := names[i];
      assert names[..i + 1] == names[..i] + [name];
      var beforeValue := Average(before, name);
      var afterValue := Average(after, name);
      LossIs(before, after, name, higherIsBetter);
      ComparedMore(reasons, regressions, names[..i], name, higherIsBetter, before, after, tolerance, earlierReasons,
                   earlierRegressions);
      if beforeValue.Some? && afterValue.Some? {
        var loss := if higherIsBetter then beforeValue.value - afterValue.value
          else afterValue.value - beforeValue.value;
        LossKnown(beforeValue, afterValue, higherIsBetter, tolerance);
        if loss > tolerance {
          regressions := regressions[name := loss];
          reasons := reasons + [QualityRegression(name)];
        }
      } else {
        LossUnknown(beforeValue, afterValue, higherIsBetter, tolerance);
      }
    }
    assert names[..|names|] == names;
    ComparedMeaning(reasons, regressions, names, higherIsBetter, before, after, tolerance, earlierReasons,
                    earlierRegressions);
  }

  /** The reasons and regressions after some of the metrics. */
  ghost predicate Compared(reasons: seq<Reason>, regressions: map<string, real>, names: seq<string>,
                           higherIsBetter: bool, before: seq<Record>, after: seq<Record>, tolerance: real,
                           earlierReasons: seq<Reason>, earlierRegressions: map<string, real>) {
    && (forall reason :: reason in reasons <==>
          || reason in earlierReasons
          || (reason.QualityRegression? && reason.metric in names
              && Above(LossOf(before, after, reason.metric, higherIsBetter), tolerance)))
    && (forall name :: name in regressions <==>
          || name in earlierRegressions
          || (name in names && Above(LossOf(before, after, name, higherIsBetter), tolerance)))
    && (forall name :: name in regressions ==>
          if name in earlierRegressions then regressions[name] == earlierRegressions[name]
          else LossOf(before, after, name, higherIsBetter) == Some(regressions[name]))
  }

  lemma ComparedMeaning(reasons: seq<Reason>, regressions: map<string, real>, names: seq<string>,
                        higherIsBetter: bool, before: seq<Record>, after: seq<Record>, tolerance: real,
                        earlierReasons: seq<Reason>, earlierRegressions: map<string, real>)
    requires Compared(reasons, regressions, names, higherIsBetter, before, after, tolerance, earlierReasons,
                      earlierRegressions)
    ensures forall reason :: reason in reasons <==>
      || reason in earlierReasons
      || (reason.QualityRegression? && reason.metric in names
          && Above(LossOf(before, after, reason.metric, higherIsBetter), tolerance))
    ensures forall name :: name in regressions <==>
      || name in earlierRegressions
      || (name in names && Above(LossOf(before, after, name, higherIsBetter), tolerance))
    ensures forall name :: name in regressions ==>
      if name in earlierRegressions then regressions[name] == earlierRegressions[name]
      else LossOf(before, after, name, higherIsBetter) == Some(regressions[name])
  {
    hide LossOf, Above;
  }

  lemma LossIs(before: seq<Record>, after: seq<Record>, name: string, higherIsBetter: bool)
    ensures LossBetween(Mean(ValuesOf(before, name)), Mean(ValuesOf(after, name)), higherIsBetter)
         == LossOf(before, after, name, higherIsBetter)
  {
  }

  lemma ComparedMore(reasons: seq<Reason>, regressions: map<string, real>, names: seq<string>, name: string,
                     higherIsBetter: bool, before: seq<Record>, after: seq<Record>, tolerance: real,
                     earlierReasons: seq<Reason>, earlierRegressions: map<string, real>)
    requires Compared(reasons, regressions, names, higherIsBetter, before, after, tolerance, earlierReasons,
                      earlierRegressions)
    requires name !in earlierRegressions
    ensures var loss := LossOf(before, after, name, higherIsBetter);
      if Above(loss, tolerance)
      then loss.Some? && Compared(reasons + [QualityRegression(name)], regressions[name := loss.value], names + [name],
                                  higherIsBetter, before, after, tolerance, earlierReasons, earlierRegressions)
      else Compared(reasons, regressions, names + [name], higherIsBetter, before, after, tolerance, earlierReasons,
                    earlierRegressions)
  {
    hide LossOf;
  }

  lemma LossKnown(before: Option<real>, after: Option<real>, higherIsBetter: bool, tolerance: real)
    requires before.Some? && after.Some?
    ensures var loss := if higherIsBetter then before.value - after.value else after.value - before.value;
      && LossBetween(before, after, higherIsBetter) == Some(loss)
      && (Above(LossBetween(before, after, higherIsBetter), tolerance) <==> loss > tolerance)
  {
  }

  lemma LossUnknown(before: Option<real>, after: Option<real>, higherIsBetter: bool, tolerance: real)
    requires before.None? || after.None?
    ensures !Above(LossBetween(before, after, higherIsBetter), tolerance)
  {
  }

  method CompareCase(id: string, before: Record, after: Record, earlier: seq<Reason>) returns (reasons: seq<Reason>)
    ensures forall reason :: reason in reasons <==> reason in earlier || CaseGives(reason, id, before, after)
  {
    reasons := earlier;
    if before.metrics.NoMetrics? || after.metrics.NoMetrics? {
      return reasons + [SchemaInvalid(id)];
    }
    if Metric(after, VALIDITY) != Some(1.0) {
      reasons := reasons + [SchemaInvalid(id)];
    }
    var beforeNumber, afterNumber := Metric(before, NUMBERS), Metric(after, NUMBERS);
    if beforeNumber.Some? && afterNumber.Some? && afterNumber.value < beforeNumber.value {
      reasons := reasons + [NumberRegression(id)];
    }
    var beforeUnsupported, afterUnsupported := Metric(before, UNSUPPORTED), Metric(after, UNSUPPORTED);
    if beforeUnsupported.Some? && afterUnsupported.Some? && afterUnsupported.value > beforeUnsupported.value {
      reasons := reasons + [UnsupportedIncrease(id)];
    }
    hide Metric;
  }

  method CompareCases(ids: seq<string>, baseline: Run, candidate: Run, earlier: seq<Reason>)
      returns (reasons: seq<Reason>)
    requires forall id :: id in ids <==> id in baseline.Keys * candidate.Keys
    ensures forall reason :: reason in reasons <==> reason in earlier || SomeCaseGives(reason, baseline, candidate)
  {
    hide CaseGives;
    assert forall id :: id in ids ==> id in baseline && id in candidate;
    reasons := earlier;
    for i := 0 to |ids|
      invariant forall reason :: reason in reasons <==>
        reason in earlier || exists id :: id in ids[..i] && CaseGives(reason, id, baseline[id], candidate[id])
    {
      assert ids[..i + 1] == ids[..i] + [ids[i]];
      reasons := CompareCase(ids[i], baseline[ids[i]], candidate[ids[i]], reasons);
    }
    assert ids[..|ids|] == ids;
  }

  ghost predicate Decides(d: Decision, baseline: Run, candidate: Run, tolerance: real, maxRate: real, approved: bool) {
    && (forall reason :: reason in d.reasons <==> Due(reason, baseline, candidate, tolerance, maxRate, approved))
    && Distinct(d.reasons)
    && (d.passed <==> d.reasons == [])
    && (d.approvalRequired <==> CostNeedsApproval in d.reasons)
    && d.comparedCaseCount == |baseline.Keys * candidate.Keys|
    && (forall name :: name in d.regressions <==> Regresses(baseline, candidate, tolerance, name))
    && (forall name :: name in d.regressions ==> Regression(baseline, candidate, name) == Some(d.regressions[name]))
    && d.costGrowth == CostGrowth(baseline, candidate)
    && d.infraFailureRate == FailureRate(RecordsOf(candidate, baseline.Keys * candidate.Keys))
  }

  /** The gate itself: refuses malformed input, and otherwise gives exactly the reasons that are due. */
  method EvaluateMergeGate(baselineRecords: seq<Record>, candidateRecords: seq<Record>, tolerance: real, maxRate: real,
                           approved: bool)
      returns (result: Result<Decision, Error>, ghost baseline: Run, ghost candidate: Run)
    ensures result.Ok? <==>
      && 0.0 <= tolerance <= 1.0 && 0.0 <= maxRate <= 1.0
      && NamesDistinctCases(baselineRecords) && NamesDistinctCases(candidateRecords) && baselineRecords != []
    ensures result.Ok? ==>
      && IsRun(baseline, baselineRecords) && IsRun(candidate, candidateRecords)
      && Decides(result.value, baseline, candidate, tolerance, maxRate, approved)
  {
    hide Decides, NamesDistinctCases, IsRun;
    baseline, candidate := map[], map[];
    if !(0.0 <= tolerance <= 1.0) {
      return Err(BadTolerance), baseline, candidate;
    }
    if !(0.0 <= maxRate <= 1.0) {
      return Err(BadFailureRate), baseline, candidate;
    }
    var baselineRun :- RecordsByCase(baselineRecords);
    var candidateRun :- RecordsByCase(candidateRecords);
    baseline, candidate := baselineRun, candidateRun;
    EmptyRun(baseline, baselineRecords);
    if baselineRun.Keys == {} {
      return Err(EmptyBaseline), baseline, candidate;
    }
    var decision := Decide(baselineRun, candidateRun, tolerance, maxRate, approved);
    result := Ok(decision);
  }

  ghost predicate IsRun(run: Run, records: seq<Record>) {
    forall id, record :: id in run && run[id] == record <==> record in records && record.caseId == Some(id)
  }

  lemma EmptyRun(run: Run, records: seq<Record>)
    requires NamesDistinctCases(records) && IsRun(run, records)
    ensures run.Keys == {} <==> records == []
  {
    if records != [] {
      assert records[0] in records && records[0].caseId == Some(records[0].caseId.value);
      assert records[0].caseId.value in run;
    }
    if id :| id in run.Keys {
      assert run[id] in records;
    }
  }

  method CompareCaseSets(baseline: Run, candidate: Run) returns (reasons: seq<Reason>)
    ensures forall reason :: reason in reasons <==>
      || (reason.MissingCases? && !(baseline.Keys <= candidate.Keys))
      || (reason.UnexpectedCases? && !(candidate.Keys <= baseline.Keys))
  {
    reasons := [];
    EmptyDifference(baseline.Keys, candidate.Keys);
    EmptyDifference(candidate.Keys, baseline.Keys);
    if baseline.Keys - candidate.Keys != {} {
      reasons := reasons + [MissingCases];
    }
    if candidate.Keys - baseline.Keys != {} {
      reasons := reasons + [UnexpectedCases];
    }
  }

  method CompareRates(ghost baseline: Run, ghost candidate: Run, before: seq<Record>, after: seq<Record>, maxRate: real,
                      approved: bool, earlier: seq<Reason>)
      returns (reasons: seq<Reason>, failureRate: real, growth: Growth, approvalRequired: bool)
    requires before == RecordsOf(baseline, baseline.Keys * candidate.Keys)
    requires after == RecordsOf(candidate, baseline.Keys * candidate.Keys)
    ensures failureRate == FailureRate(after) && growth == CostGrowth(baseline, candidate)
    ensures approvalRequired <==> !approved && Expensive(CostGrowth(baseline, candidate))
    ensures forall reason :: reason in reasons <==>
      || reason in earlier
      || (reason.InfraFailureRate? && FailureRate(after) > maxRate)
      || (reason.CostNeedsApproval? && approvalRequired)
  {
    hide *;
    reasons := earlier;
    failureRate := InfraRate(after);
    if failureRate > maxRate {
      reasons := reasons + [InfraFailureRate];
    }
    var costBefore := Average(before, COST);
    var costAfter := Average(after, COST);
    growth := GrowthOf(costBefore, costAfter);
    CostGrowthIs(baseline, candidate, costBefore, costAfter);
    approvalRequired := Expensive(growth) && !approved;
    if approvalRequired {
      reasons := reasons + [CostNeedsApproval];
    }
  }

  method Decide(baseline: Run, candidate: Run, tolerance: real, maxRate: real, approved: bool)
      returns (decision: Decision)
    ensures Decides(decision, baseline, candidate, tolerance, maxRate, approved)
  {
    var reasons := CompareCaseSets(baseline, candidate);
    var ids := SortedStrings(baseline.Keys * candidate.Keys);
    var before, after := Picked(baseline, ids), Picked(candidate, ids);
    SharedRecords(baseline, candidate, ids);
    hide *;
    var regressions: map<string, real>;
    reasons, regressions := CompareAllMetrics(baseline, candidate, before, after, tolerance, reasons);
    reasons := CompareCases(ids, baseline, candidate, reasons);
    var failureRate: real, growth: Growth, approvalRequired: bool;
    reasons, failureRate, growth, approvalRequired := CompareRates(baseline, candidate, before, after, maxRate,
                                                                   approved, reasons);
    var unique := Unique(reasons);
    decision := Decision(unique == [], approvalRequired, |ids|, unique, regressions, growth, failureRate);
    forall reason ensures reason in unique <==> Due(reason, baseline, candidate, tolerance, maxRate, approved) {
      DueMeans(reason, baseline, candidate, tolerance, maxRate, approved);
    }
    DecidesFromParts(decision, baseline, candidate, tolerance, maxRate, approved);
  }

  lemma SharedRecords(baseline: Run, candidate: Run, ids: seq<string>)
    requires ids == SortedListing(baseline.Keys * candidate.Keys)
    ensures |ids| == |baseline.Keys * candidate.Keys|
    ensures Picked(baseline, ids) == RecordsOf(baseline, baseline.Keys * candidate.Keys)
    ensures Picked(candidate, ids) == RecordsOf(candidate, baseline.Keys * candidate.Keys)
  {
    DistinctSize(ids);
  }

  lemma CostGrowthIs(baseline: Run, candidate: Run, before: Option<real>, after: Option<real>)
    requires before == Mean(ValuesOf(RecordsOf(baseline, baseline.Keys * candidate.Keys), COST))
    requires after == Mean(ValuesOf(RecordsOf(candidate, baseline.Keys * candidate.Keys), COST))
    ensures GrowthOf(before, after) == CostGrowth(baseline, candidate)
  {
    hide Mean, ValuesOf, RecordsOf, GrowthOf;
  }

  /** The kinds of reason, one clause for each. */
  lemma DueMeans(reason: Reason, baseline: Run, candidate: Run, tolerance: real, maxRate: real, approved: bool)
    ensures Due(reason, baseline, candidate, tolerance, maxRate, approved) <==>
      || (reason.MissingCases? && !(baseline.Keys <= candidate.Keys))
      || (reason.UnexpectedCases? && !(candidate.Keys <= baseline.Keys))
      || (reason.QualityRegression? && Regresses(baseline, candidate, tolerance, reason.metric))
      || SomeCaseGives(reason, baseline, candidate)
      || (reason.InfraFailureRate? && FailureRate(RecordsOf(candidate, baseline.Keys * candidate.Keys)) > maxRate)
      || (reason.CostNeedsApproval? && !approved && Expensive(CostGrowth(baseline, candidate)))
  {
    hide Regresses, FailureRate, RecordsOf, Expensive, CostGrowth, Metric, Falls;
  }

  lemma DecidesFromParts(d: Decision, baseline: Run, candidate: Run, tolerance: real, maxRate: real, approved: bool)
    requires forall reason :: reason in d.reasons <==> Due(reason, baseline, candidate, tolerance, maxRate, approved)
    requires Distinct(d.reasons) && (d.passed <==> d.reasons == [])
    requires d.approvalRequired <==> !approved && Expensive(CostGrowth(baseline, candidate))
    requires d.comparedCaseCount == |baseline.Keys * candidate.Keys|
    requires forall name :: name in d.regressions <==> Regresses(baseline, candidate, tolerance, name)
    requires forall name :: name in d.regressions ==> Regression(baseline, candidate, name) == Some(d.regressions[name])
    requires d.costGrowth == CostGrowth(baseline, candidate)
    requires d.infraFailureRate == FailureRate(RecordsOf(candidate, baseline.Keys * candidate.Keys))
    ensures Decides(d, baseline, candidate, tolerance, maxRate, approved)
  {
    DueMeans(CostNeedsApproval, baseline, candidate, tolerance, maxRate, approved);
    NoCaseGivesCost(baseline, candidate);
    hide Regresses, Regression, FailureRate, RecordsOf, Expensive, CostGrowth, Due, CaseGives;
  }

  lemma NoCaseGivesCost(baseline: Run, candidate: Run)
    ensures !SomeCaseGives(CostNeedsApproval, baseline, candidate)
  {
  }

  /** Both directions, over the records of the shared cases. */
  method CompareAllMetrics(ghost baseline: Run, ghost candidate: Run, before: seq<Record>, after: seq<Record>,
                           tolerance: real, earlier: seq<Reason>)
      returns (reasons: seq<Reason>, regressions: map<string, real>)
    requires before == RecordsOf(baseline, baseline.Keys * candidate.Keys)
    requires after == RecordsOf(candidate, baseline.Keys * candidate.Keys)
    ensures forall reason :: reason in reasons <==>
      reason in earlier || (reason.QualityRegression? && Regresses(baseline, candidate, tolerance, reason.metric))
    ensures forall name :: name in regressions <==> Regresses(baseline, candidate, tolerance, name)
    ensures forall name :: name in regressions ==> Regression(baseline, candidate, name) == Some(regressions[name])
  {
    DirectionsDiffer();
    hide *;
    regressions := map[];
    reasons, regressions := CompareMetrics(HIGHER_IS_BETTER, true, before, after, tolerance, earlier, regressions);
    reasons, regressions := CompareMetrics(LOWER_IS_BETTER, false, before, after, tolerance, reasons, regressions);
    forall name
      ensures Regresses(baseline, candidate, tolerance, name) <==>
        || (HigherIsBetter(name) && Above(LossOf(before, after, name, true), tolerance))
        || (LowerIsBetter(name) && Above(LossOf(before, after, name, false), tolerance))
      ensures Regression(baseline, candidate, name) == LossOf(before, after, name, HigherIsBetter(name))
    {
      RegressionIsLoss(baseline, candidate, tolerance, name);
    }
  }

  lemma RegressionIsLoss(baseline: Run, candidate: Run, tolerance: real, name: string)
    ensures var cases := baseline.Keys * candidate.Keys;
      var before, after := RecordsOf(baseline, cases), RecordsOf(candidate, cases);
      && Regression(baseline, candidate, name) == LossOf(before, after, name, HigherIsBetter(name))
      && (Regresses(baseline, candidate, tolerance, name) <==>
           || (HigherIsBetter(name) && Above(LossOf(before, after, name, true), tolerance))
           || (LowerIsBetter(name) && Above(LossOf(before, after, name, false), tolerance)))
  {
    DirectionsDiffer();
    hide Mean, ValuesOf, RecordsOf, LossBetween;
  }

  lemma DirectionsDiffer()
    ensures forall name :: LowerIsBetter(name) ==> !HigherIsBetter(name)
    ensures forall name :: name in HIGHER_IS_BETTER <==> HigherIsBetter(name)
    ensures forall name :: name in LOWER_IS_BETTER <==> LowerIsBetter(name)
  {
  }

  // What passing means for one gate, and for a chain of gates.

  lemma PassingGate(baseline: Run, candidate: Run, tolerance: real, maxRate: real, approved: bool)
    requires Passes(baseline, candidate, tolerance, maxRate, approved)
    ensures baseline.Keys == candidate.Keys
    ensures forall name :: HigherIsBetter(name) || LowerIsBetter(name) ==>
      !Above(LossBetween(AverageOf(baseline, name), AverageOf(candidate, name),
                         HigherIsBetter(name)), tolerance)
    ensures forall id :: id in baseline ==>
      && !Falls(Metric(baseline[id], NUMBERS), Metric(candidate[id], NUMBERS))
      && !Falls(Metric(candidate[id], UNSUPPORTED), Metric(baseline[id], UNSUPPORTED))
      && Metric(candidate[id], VALIDITY) == Some(1.0)
    ensures FailureRate(RecordsOf(candidate, candidate.Keys)) <= maxRate
    ensures approved || !Expensive(GrowthOf(AverageOf(baseline, COST), AverageOf(candidate, COST)))
  {
    PassingKeepsCases(baseline, candidate, tolerance, maxRate, approved);
    hide *;
    forall name | HigherIsBetter(name) || LowerIsBetter(name)
      ensures !Above(LossBetween(AverageOf(baseline, name), AverageOf(candidate, name), HigherIsBetter(name)),
                     tolerance)
    {
      PassingMetric(baseline, candidate, tolerance, maxRate, approved, name);
    }
    forall id | id in baseline
      ensures && !Falls(Metric(baseline[id], NUMBERS), Metric(candidate[id], NUMBERS))
              && !Falls(Metric(candidate[id], UNSUPPORTED), Metric(baseline[id], UNSUPPORTED))
              && Metric(candidate[id], VALIDITY) == Some(1.0)
    {
      PassingCase(baseline, candidate, tolerance, maxRate, approved, id);
    }
    PassingRates(baseline, candidate, tolerance, maxRate, approved);
  }

  lemma PassingKeepsCases(baseline: Run, candidate: Run, tolerance: real, maxRate: real, approved: bool)
    requires Passes(baseline, candidate, tolerance, maxRate, approved)
    ensures baseline.Keys == candidate.Keys == baseline.Keys * candidate.Keys
  {
    DueMeans(MissingCases, baseline, candidate, tolerance, maxRate, approved);
    DueMeans(UnexpectedCases, baseline, candidate, tolerance, maxRate, approved);
    hide Due;
  }

  lemma PassingMetric(baseline: Run, candidate: Run, tolerance: real, maxRate: real, approved: bool, name: string)
    requires Passes(baseline, candidate, tolerance, maxRate, approved) && (HigherIsBetter(name) || LowerIsBetter(name))
    ensures !Above(LossBetween(AverageOf(baseline, name), AverageOf(candidate, name), HigherIsBetter(name)), tolerance)
  {
    PassingKeepsCases(baseline, candidate, tolerance, maxRate, approved);
    DueMeans(QualityRegression(name), baseline, candidate, tolerance, maxRate, approved);
    hide Due, AverageOver, HigherIsBetter, LowerIsBetter, Above, LossBetween;
  }

  lemma PassingRates(baseline: Run, candidate: Run, tolerance: real, maxRate: real, approved: bool)
    requires Passes(baseline, candidate, tolerance, maxRate, approved)
    ensures FailureRate(RecordsOf(candidate, candidate.Keys)) <= maxRate
    ensures approved || !Expensive(GrowthOf(AverageOf(baseline, COST), AverageOf(candidate, COST)))
  {
    PassingKeepsCases(baseline, candidate, tolerance, maxRate, approved);
    DueMeans(InfraFailureRate, baseline, candidate, tolerance, maxRate, approved);
    DueMeans(CostNeedsApproval, baseline, candidate, tolerance, maxRate, approved);
    hide Due, AverageOver, RecordsOf, FailureRate, GrowthOf, Expensive;
  }

  lemma PassingCase(baseline: Run, candidate: Run, tolerance: real, maxRate: real, approved: bool, id: string)
    requires Passes(baseline, candidate, tolerance, maxRate, approved) && id in baseline && id in candidate
    ensures && !Falls(Metric(baseline[id], NUMBERS), Metric(candidate[id], NUMBERS))
            && !Falls(Metric(candidate[id], UNSUPPORTED), Metric(baseline[id], UNSUPPORTED))
            && Metric(candidate[id], VALIDITY) == Some(1.0)
  {
    hide Metric, Falls;
    assert id in baseline.Keys * candidate.Keys;
    assert !Due(SchemaInvalid(id), baseline, candidate, tolerance, maxRate, approved);
    assert !Due(NumberRegression(id), baseline, candidate, tolerance, maxRate, approved);
    assert !Due(UnsupportedIncrease(id), baseline, candidate, tolerance, maxRate, approved);
    assert !CaseGives(SchemaInvalid(id), id, baseline[id], candidate[id]);
    assert !CaseGives(NumberRegression(id), id, baseline[id], candidate[id]);
    assert !CaseGives(UnsupportedIncrease(id), id, baseline[id], candidate[id]);
  }

  /** Releases of which each passed the gate against the one before. */
  ghost predicate Chain(releases: seq<Run>, tolerance: real, maxRate: real, approved: bool) {
    && releases != []
    && forall i, j :: 0 <= i < j < |releases| && j == i + 1 ==>
       Passes(releases[i], releases[j], tolerance, maxRate, approved)
  }

  lemma ChainPrefix(releases: seq<Run>, tolerance: real, maxRate: real, approved: bool)
    requires Chain(releases, tolerance, maxRate, approved) && |releases| > 1
    ensures Chain(releases[..|releases| - 1], tolerance, maxRate, approved)
    ensures Passes(releases[|releases| - 2], releases[|releases| - 1], tolerance, maxRate, approved)
  {
    hide Passes;
  }

  /** The case set never changes along a chain. */
  lemma {:induction false} ChainKeepsCases(releases: seq<Run>, tolerance: real, maxRate: real, approved: bool)
    requires Chain(releases, tolerance, maxRate, approved)
    ensures releases[|releases| - 1].Keys == releases[0].Keys
  {
    hide Passes;
    var n := |releases| - 1;
    if n > 0 {
      ChainPrefix(releases, tolerance, maxRate, approved);
      ChainKeepsCases(releases[..n], tolerance, maxRate, approved);
      PassingGate(releases[n - 1], releases[n], tolerance, maxRate, approved);
    }
  }

  /** Along a chain of k gates an average that every release has ends at most k tolerances worse. */
  lemma ChainBoundsLoss(releases: seq<Run>, tolerance: real, maxRate: real, approved: bool, name: string)
    requires Chain(releases, tolerance, maxRate, approved)
    requires HigherIsBetter(name) || LowerIsBetter(name)
    requires forall i :: 0 <= i < |releases| ==> Averages(releases, name)[i].Some?
    ensures var averages := Averages(releases, name);
      var loss := LossBetween(averages[0], averages[|averages| - 1], HigherIsBetter(name));
      loss.Some? && loss.value <= (|releases| - 1) as real * tolerance
  {
    hide *;
    AverageSteps(releases, tolerance, maxRate, approved, name);
    LossesAddUp(Averages(releases, name), HigherIsBetter(name), tolerance);
  }

  /** The averages of one metric, release by release. */
  ghost function Averages(releases: seq<Run>, name: string): (averages: seq<Option<real>>)
    ensures |averages| == |releases|
    ensures forall i :: 0 <= i < |releases| ==> averages[i] == AverageOf(releases[i], name)
  {
    seq(|releases|, i requires 0 <= i < |releases| => AverageOf(releases[i], name))
  }

  lemma AverageSteps(releases: seq<Run>, tolerance: real, maxRate: real, approved: bool, name: string)
    requires Chain(releases, tolerance, maxRate, approved) && (HigherIsBetter(name) || LowerIsBetter(name))
    ensures releases != []
    ensures forall i, j :: 0 <= i < j < |releases| && j == i + 1 ==>
      !Above(LossBetween(Averages(releases, name)[i], Averages(releases, name)[j], HigherIsBetter(name)), tolerance)
  {
    hide Passes, AverageOf, Averages, HigherIsBetter, LowerIsBetter, Above, LossBetween;
    forall i, j | 0 <= i < j < |releases| && j == i + 1
      ensures !Above(LossBetween(Averages(releases, name)[i], Averages(releases, name)[j], HigherIsBetter(name)),
                     tolerance)
    {
      PassingMetric(releases[i], releases[j], tolerance, maxRate, approved, name);
    }
  }

  lemma {:induction false} LossesAddUp(averages: seq<Option<real>>, higherIsBetter: bool, tolerance: real)
    requires averages != [] && forall i :: 0 <= i < |averages| ==> averages[i].Some?
    requires forall i, j :: 0 <= i < j < |averages| && j == i + 1 ==>
      !Above(LossBetween(averages[i], averages[j], higherIsBetter), tolerance)
    ensures var loss := LossBetween(averages[0], averages[|averages| - 1], higherIsBetter);
      loss.Some? && loss.value <= (|averages| - 1) as real * tolerance
  {
    var n := |averages| - 1;
    if n > 0 {
      LossesAddUp(averages[..n], higherIsBetter, tolerance);
      LossesAdd(averages[0], averages[n - 1], averages[n], higherIsBetter, tolerance);
      OneMoreTolerance(n, tolerance);
    }
  }

  lemma LossesAdd(first: Option<real>, middle: Option<real>, last: Option<real>, higherIsBetter: bool, tolerance: real)
    requires first.Some? && middle.Some? && last.Some?
    requires !Above(LossBetween(middle, last, higherIsBetter), tolerance)
    ensures LossBetween(first, middle, higherIsBetter).Some? && LossBetween(first, last, higherIsBetter).Some?
    ensures LossBetween(first, last, higherIsBetter).value <= LossBetween(first, middle, higherIsBetter).value +
      tolerance
  {
  }

  lemma OneMoreTolerance(n: nat, tolerance: real)
    requires n > 0
    ensures n as real * tolerance == (n - 1) as real * tolerance + tolerance
  {
    assert n as real == (n - 1) as real + 1.0;
  }

  /** Along a chain, numeric exactness known in every release never falls, and a known unsupported rate never rises. */
  lemma {:induction false} ChainKeepsCase(releases: seq<Run>, tolerance: real, maxRate: real, approved: bool,
                                          id: string)
    requires Chain(releases, tolerance, maxRate, approved) && id in releases[0]
    ensures id in releases[|releases| - 1]
    ensures (forall run :: run in releases ==> id in run && Metric(run[id], NUMBERS).Some?) ==>
      Metric(releases[|releases| - 1][id], NUMBERS).value >= Metric(releases[0][id], NUMBERS).value
    ensures (forall run :: run in releases ==> id in run && Metric(run[id], UNSUPPORTED).Some?) ==>
      Metric(releases[|releases| - 1][id], UNSUPPORTED).value <= Metric(releases[0][id], UNSUPPORTED).value
    ensures |releases| > 1 ==> Metric(releases[|releases| - 1][id], VALIDITY) == Some(1.0)
  {
    hide Passes, Metric;
    var n := |releases| - 1;
    assert releases[0] in releases && releases[n] in releases;
    if n > 0 {
      assert releases[n - 1] in releases;
      assert forall run :: run in releases[..n] ==> run in releases;
      ChainPrefix(releases, tolerance, maxRate, approved);
      ChainKeepsCase(releases[..n], tolerance, maxRate, approved, id);
      hide Falls;
      PassingCaseKept(releases[n - 1], releases[n], tolerance, maxRate, approved, id);
    }
  }

  lemma PassingCaseKept(baseline: Run, candidate: Run, tolerance: real, maxRate: real, approved: bool, id: string)
    requires Passes(baseline, candidate, tolerance, maxRate, approved) && id in baseline
    ensures id in candidate && Metric(candidate[id], VALIDITY) == Some(1.0)
    ensures Metric(baseline[id], NUMBERS).Some? && Metric(candidate[id], NUMBERS).Some? ==>
      Metric(candidate[id], NUMBERS).value >= Metric(baseline[id], NUMBERS).value
    ensures Metric(baseline[id], UNSUPPORTED).Some? && Metric(candidate[id], UNSUPPORTED).Some? ==>
      Metric(candidate[id], UNSUPPORTED).value <= Metric(baseline[id], UNSUPPORTED).value
  {
    hide Passes, Metric;
    PassingGate(baseline, candidate, tolerance, maxRate, approved);
  }

  function Power(base: real, n: nat): real {
    if n == 0 then 1.0 else base * Power(base, n - 1)
  }

  /**
   * Along a chain in which no gate approved a rise, a cost that is never negative
   * grows by at most ten percent a gate.
   */
  lemma ChainBoundsCost(releases: seq<Run>, tolerance: real, maxRate: real)
    requires Chain(releases, tolerance, maxRate, false)
    requires forall i :: 0 <= i < |releases| ==>
      Averages(releases, COST)[i].Some? && Averages(releases, COST)[i].value >= 0.0
    ensures var costs := Averages(releases, COST);
      costs[|costs| - 1].value <= Power(1.10, |costs| - 1) * costs[0].value
  {
    hide *;
    CostSteps(releases, tolerance, maxRate);
    CostsCompound(Averages(releases, COST));
  }

  lemma CostSteps(releases: seq<Run>, tolerance: real, maxRate: real)
    requires Chain(releases, tolerance, maxRate, false)
    requires forall i :: 0 <= i < |releases| ==>
      Averages(releases, COST)[i].Some? && Averages(releases, COST)[i].value >= 0.0
    ensures releases != []
    ensures forall i, j :: 0 <= i < j < |releases| && j == i + 1 ==>
      Averages(releases, COST)[j].value <= 1.10 * Averages(releases, COST)[i].value
  {
    assert releases != [];
    assert forall i, j :: 0 <= i < j < |releases| && j == i + 1 ==>
      Passes(releases[i], releases[j], tolerance, maxRate, false);
    hide *;
    forall i, j | 0 <= i < j < |releases| && j == i + 1
      ensures Averages(releases, COST)[j].value <= 1.10 * Averages(releases, COST)[i].value
    {
      CostStep(releases[i], releases[j], tolerance, maxRate, Averages(releases, COST)[i], Averages(releases, COST)[j]);
    }
  }

  lemma CostStep(baseline: Run, candidate: Run, tolerance: real, maxRate: real, before: Option<real>,
                 after: Option<real>)
    requires Passes(baseline, candidate, tolerance, maxRate, false)
    requires before == AverageOf(baseline, COST) && after == AverageOf(candidate, COST)
    requires before.Some? && after.Some? && before.value >= 0.0
    ensures after.value <= 1.10 * before.value
  {
    hide *;
    PassingRates(baseline, candidate, tolerance, maxRate, false);
    CheapGrowth(before, after);
  }

  lemma {:induction false} CostsCompound(costs: seq<Option<real>>)
    requires costs != [] && forall i :: 0 <= i < |costs| ==> costs[i].Some?
    requires forall i, j :: 0 <= i < j < |costs| && j == i + 1 ==> costs[j].value <= 1.10 * costs[i].value
    ensures costs[|costs| - 1].value <= Power(1.10, |costs| - 1) * costs[0].value
  {
    hide Power;
    var n := |costs| - 1;
    PowerSteps(n);
    if n > 0 {
      CostsCompound(costs[..n]);
      CompoundGrowth(costs[0].value, costs[n - 1].value, costs[n].value, Power(1.10, n - 1), Power(1.10, n));
    }
  }

  lemma PowerSteps(n: nat)
    ensures n == 0 ==> Power(1.10, n) == 1.0
    ensures n > 0 ==> Power(1.10, n) == 1.10 * Power(1.10, n - 1)
  {
  }

  lemma CompoundGrowth(start: real, before: real, after: real, earlier: real, later: real)
    requires before <= earlier * start && after <= 1.10 * before && later == 1.10 * earlier
    ensures after <= later * start
  {
    assert 1.10 * before <= 1.10 * (earlier * start);
    assert 1.10 * (earlier * start) == later * start;
  }

  lemma CheapGrowth(before: Option<real>, after: Option<real>)
    requires before.Some? && after.Some? && before.value >= 0.0 && !Expensive(GrowthOf(before, after))
    ensures after.value <= 1.10 * before.value
  {
    if before.value > 0.0 {
      var share := (after.value - before.value) / before.value;
      assert share * before.value == after.value - before.value;
      assert share * before.value <= 0.10 * before.value;
    }
  }
}
