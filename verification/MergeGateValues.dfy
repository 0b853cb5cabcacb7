/**
 * What the merge gate's averages and rates are, and exactly when a candidate
 * passes, in terms of the records.
 */
module MergeGateValues {
  import opened Reals
  import opened Sequences
  import opened Sorting
  import opened MergeGate

  // Averages.

  /** The positions, in order, of the records that have the metric. */
  ghost predicate HaveMetric(records: seq<Record>, name: string, positions: seq<nat>) {
    && (forall i, j :: 0 <= i < j < |positions| ==> positions[i] < positions[j])
    && forall k: nat :: k in positions <==> k < |records| && Metric(records[k], name).Some?
  }

  /** The values averaged are those of the records that have the metric, one each and in order. */
  lemma {:induction false} ValuesAre(records: seq<Record>, name: string) returns (positions: seq<nat>)
    ensures HaveMetric(records, name, positions) && |ValuesOf(records, name)| == |positions|
    ensures forall i :: 0 <= i < |positions| ==>
      positions[i] < |records| && Metric(records[positions[i]], name) == Some(ValuesOf(records, name)[i])
  {
    hide Metric;
    if records == [] {
      positions := [];
    } else {
      var n := |records| - 1;
      var earlier := ValuesAre(records[..n], name);
      positions := earlier + if Metric(records[n], name).Some? then [n] else [];
      forall i | 0 <= i < |earlier| ensures earlier[i] < n {
        assert earlier[i] in earlier;
      }
      forall k: nat ensures k in positions <==> k < |records| && Metric(records[k], name).Some? {
        assert k in positions <==> k in earlier || (k == n && Metric(records[n], name).Some?);
        assert k < n ==> records[..n][k] == records[k];
      }
    }
  }

  lemma {:induction false} SumAfterUpdate(values: seq<real>, k: nat, x: real)
    requires k < |values|
    ensures SumOf(values[k := x]) == SumOf(values) - values[k] + x
  {
    var n := |values| - 1;
    if k == n {
      assert values[k := x][..n] == values[..n];
    } else {
      assert values[k := x][..n] == values[..n][k := x];
      SumAfterUpdate(values[..n], k, x);
    }
  }

  lemma {:induction false} SumOfConstant(values: seq<real>, x: real)
    requires forall k :: 0 <= k < |values| ==> values[k] == x
    ensures SumOf(values) == PartOf(x, |values|)
  {
    if values == [] {
      assert PartOf(x, 0) == 0.0;
    } else {
      SumOfConstant(values[..|values| - 1], x);
      OneMorePart(x, |values|);
      hide PartOf;
    }
  }

  lemma OneMorePart(x: real, n: nat)
    requires n > 0
    ensures PartOf(x, n) == PartOf(x, n - 1) + x
  {
    assert n as real == (n - 1) as real + 1.0;
  }

  /** There is no mean of nothing, and equal values have that mean. */
  lemma MeanOfEqualValues(values: seq<real>, x: real)
    requires forall k :: 0 <= k < |values| ==> values[k] == x
    ensures Mean(values) == if values == [] then None else Some(x)
  {
    if values != [] {
      SumOfConstant(values, x);
      PartBack(x, |values|);
      hide SumOf, PartOf;
    }
  }

  /** Each value moves the mean by its share. */
  lemma MeanAfterUpdate(values: seq<real>, k: nat, x: real)
    requires k < |values|
    ensures PartOf(Mean(values[k := x]).value - Mean(values).value, |values|) == x - values[k]
  {
    SumAfterUpdate(values, k, x);
    hide SumOf, PartOf;
    DifferenceOfMeans(SumOf(values[k := x]), SumOf(values), |values|);
  }

  lemma PartBack(x: real, n: nat)
    requires n > 0
    ensures PartOf(x, n) / n as real == x
  {
  }

  lemma DifferenceOfMeans(sum: real, other: real, n: nat)
    requires n > 0
    ensures PartOf(sum / n as real - other / n as real, n) == sum - other
  {
    var p, q := sum / n as real, other / n as real;
    assert p * n as real == sum && q * n as real == other;
  }

  // Failure rates.

  /** The positions of the records that failed on infrastructure. */
  ghost function Failing(records: seq<Record>): set<nat> {
    set k: nat | k < |records| && FailedOnInfra(records[k])
  }

  lemma {:induction false} FailedAreCounted(records: seq<Record>)
    ensures FailedCount(records) == |Failing(records)|
  {
    hide FailedOnInfra;
    if records == [] {
      assert Failing(records) == {};
    } else {
      var n := |records| - 1;
      FailedAreCounted(records[..n]);
      assert Failing(records) == Failing(records[..n]) + if FailedOnInfra(records[n]) then {n} else {};
    }
  }

  /** A record failed on infrastructure when it crashed, ran out of memory or time, on its own or at the provider. */
  lemma InfraFailures(record: Record)
    ensures FailedOnInfra(record) <==>
      || "crash" in record.hardFailures || "oom" in record.hardFailures || "timeout" in record.hardFailures
      || "provider_crash" in record.hardFailures || "gpu_oom" in record.hardFailures
      || "provider_timeout" in record.hardFailures
  {
    var failures := record.hardFailures * INFRA_FAILURES;
    forall name | name in INFRA_FAILURES && name in record.hardFailures ensures failures != {} {
      assert name in failures;
    }
    if failures != {} {
      var name :| name in failures;
    }
  }

  /** The failure rate is the share of failed records, and one when there are none at all. */
  lemma FailureRateMeaning(records: seq<Record>)
    ensures records == [] ==> FailureRate(records) == 1.0
    ensures records != [] ==> PartOf(FailureRate(records), |records|) == |Failing(records)| as real
  {
    FailedAreCounted(records);
    if records != [] {
      PartOfRatio(FailedCount(records) as real, |records|);
    }
  }

  // Passing.

  /** A known average of a metric with a direction is not worse by more than the tolerance. */
  ghost predicate AverageHolds(baseline: Run, candidate: Run, tolerance: real, name: string) {
    var before, after := AverageOf(baseline, name), AverageOf(candidate, name);
    before.Some? && after.Some? ==>
      && (HigherIsBetter(name) ==> before.value - after.value <= tolerance)
      && (LowerIsBetter(name) ==> after.value - before.value <= tolerance)
  }

  ghost predicate AveragesHold(baseline: Run, candidate: Run, tolerance: real) {
    forall name :: AverageHolds(baseline, candidate, tolerance, name)
  }

  /** The case is readable and valid, no known exactness fell and no known unsupported rate rose. */
  ghost predicate CaseHolds(before: Record, after: Record) {
    && before.metrics.Metrics? && Metric(after, "schema_validity") == Some(1.0)
    && (Metric(before, "numeric_exact_match").Some? && Metric(after, "numeric_exact_match").Some? ==>
          Metric(after, "numeric_exact_match").value >= Metric(before, "numeric_exact_match").value)
    && (Metric(before, "unsupported_claim_rate").Some? && Metric(after, "unsupported_claim_rate").Some? ==>
          Metric(after, "unsupported_claim_rate").value <= Metric(before, "unsupported_claim_rate").value)
  }

  ghost predicate CasesHold(baseline: Run, candidate: Run)
    requires baseline.Keys == candidate.Keys
  {
    forall id :: id in baseline ==> CaseHolds(baseline[id], candidate[id])
  }

  /** The cost may grow by a tenth; from nothing it may not grow at all. */
  ghost predicate CostHolds(baseline: Run, candidate: Run) {
    var before, after := AverageOf(baseline, "estimated_cost_usd"), AverageOf(candidate, "estimated_cost_usd");
    before.Some? && after.Some? ==>
      if before.value > 0.0 then after.value <= 1.1 * before.value
      else if before.value == 0.0 then after.value == 0.0
      else after.value >= 1.1 * before.value
  }

  /** A candidate passes exactly when it has the baseline's cases, nothing got worse, and few enough cases failed. */
  lemma PassesIff(baseline: Run, candidate: Run, tolerance: real, maxRate: real, approved: bool)
    ensures Passes(baseline, candidate, tolerance, maxRate, approved) <==>
      && baseline.Keys == candidate.Keys
      && AveragesHold(baseline, candidate, tolerance)
      && CasesHold(baseline, candidate)
      && FailureRate(RecordsOf(candidate, candidate.Keys)) <= maxRate
      && (approved || CostHolds(baseline, candidate))
  {
    var passes := Passes(baseline, candidate, tolerance, maxRate, approved);
    if passes {
      PassingKeepsCases(baseline, candidate, tolerance, maxRate, approved);
    }
    if baseline.Keys == candidate.Keys {
      assert baseline.Keys * candidate.Keys == baseline.Keys;
      AveragesIff(baseline, candidate, tolerance);
      CasesIff(baseline, candidate);
      CostIff(baseline, candidate);
      hide Passes, AveragesHold, CasesHold, CostHolds, FailureRate, RecordsOf, Regresses, SomeCaseGives, Expensive,
        CostGrowth;
      SameCasesPass(baseline, candidate, tolerance, maxRate, approved);
    }
  }

  lemma SameCasesPass(baseline: Run, candidate: Run, tolerance: real, maxRate: real, approved: bool)
    requires baseline.Keys == candidate.Keys == baseline.Keys * candidate.Keys
    ensures Passes(baseline, candidate, tolerance, maxRate, approved) <==>
      && (forall name :: !Regresses(baseline, candidate, tolerance, name))
      && (forall reason :: !SomeCaseGives(reason, baseline, candidate))
      && FailureRate(RecordsOf(candidate, candidate.Keys)) <= maxRate
      && (approved || !Expensive(CostGrowth(baseline, candidate)))
  {
    hide Due, Regresses, SomeCaseGives, Expensive, CostGrowth, FailureRate, RecordsOf;
    forall reason
      ensures Due(reason, baseline, candidate, tolerance, maxRate, approved) <==>
        || (reason.QualityRegression? && Regresses(baseline, candidate, tolerance, reason.metric))
        || SomeCaseGives(reason, baseline, candidate)
        || (reason.InfraFailureRate? && FailureRate(RecordsOf(candidate, candidate.Keys)) > maxRate)
        || (reason.CostNeedsApproval? && !approved && Expensive(CostGrowth(baseline, candidate)))
    {
      DueMeans(reason, baseline, candidate, tolerance, maxRate, approved);
    }
    if Passes(baseline, candidate, tolerance, maxRate, approved) {
      forall name ensures !Regresses(baseline, candidate, tolerance, name) {
        assert !Due(QualityRegression(name), baseline, candidate, tolerance, maxRate, approved);
      }
      assert !Due(InfraFailureRate, baseline, candidate, tolerance, maxRate, approved);
      assert !Due(CostNeedsApproval, baseline, candidate, tolerance, maxRate, approved);
    }
  }

  lemma AveragesIff(baseline: Run, candidate: Run, tolerance: real)
    requires baseline.Keys == candidate.Keys == baseline.Keys * candidate.Keys
    ensures AveragesHold(baseline, candidate, tolerance) <==>
      forall name :: !Regresses(baseline, candidate, tolerance, name)
  {
    hide AverageOver, HigherIsBetter, LowerIsBetter;
    DirectionsDiffer();
    forall name
      ensures !Regresses(baseline, candidate, tolerance, name) <==> AverageHolds(baseline, candidate, tolerance, name)
    {
    }
  }

  lemma CasesIff(baseline: Run, candidate: Run)
    requires baseline.Keys == candidate.Keys == baseline.Keys * candidate.Keys
    ensures CasesHold(baseline, candidate) <==> forall reason :: !SomeCaseGives(reason, baseline, candidate)
  {
    hide Metric;
    if forall reason :: !SomeCaseGives(reason, baseline, candidate) {
      forall id | id in baseline ensures CaseHolds(baseline[id], candidate[id]) {
        assert !SomeCaseGives(SchemaInvalid(id), baseline, candidate);
        assert !SomeCaseGives(NumberRegression(id), baseline, candidate);
        assert !SomeCaseGives(UnsupportedIncrease(id), baseline, candidate);
        assert !CaseGives(SchemaInvalid(id), id, baseline[id], candidate[id]);
        assert !CaseGives(NumberRegression(id), id, baseline[id], candidate[id]);
        assert !CaseGives(UnsupportedIncrease(id), id, baseline[id], candidate[id]);
      }
    }
    if CasesHold(baseline, candidate) {
      forall reason, id | id in baseline ensures !CaseGives(reason, id, baseline[id], candidate[id]) {
        assert CaseHolds(baseline[id], candidate[id]);
      }
    }
  }

  lemma CostIff(baseline: Run, candidate: Run)
    requires baseline.Keys == candidate.Keys == baseline.Keys * candidate.Keys
    ensures CostHolds(baseline, candidate) <==> !Expensive(CostGrowth(baseline, candidate))
  {
    hide AverageOver;
    var before, after := AverageOf(baseline, COST), AverageOf(candidate, COST);
    if before.Some? && after.Some? && before.value != 0.0 {
      GrowthAgainst(before.value, after.value);
    }
  }

  lemma GrowthAgainst(before: real, after: real)
    requires before != 0.0
    ensures (after - before) / before > 0.10 <==> if before > 0.0 then after > 1.1 * before else after < 1.1 * before
  {
    var share := (after - before) / before;
    assert share * before == after - before;
    if before > 0.0 {
      assert share > 0.10 <==> share * before > 0.10 * before;
    } else {
      assert share > 0.10 <==> share * before < 0.10 * before;
    }
  }
}
