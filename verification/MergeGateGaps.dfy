/**
 * When the merge gate guards a case over a chain of releases: exactly when no
 * release leaves the case's value out.
 */
module MergeGateGaps {
  import opened Sequences
  import opened Sorting
  import opened MergeGate

  /** The two values the gate guards case by case. */
  predicate IsGuarded(name: string) {
    name == NUMBERS || name == UNSUPPORTED
  }

  /** Exactness must not fall, and the unsupported rate must not rise. */
  predicate Worsens(name: string, before: real, after: real) {
    if name == NUMBERS then after < before else after > before
  }

  /** Every release has the case, and knows its value exactly where the pattern says so. */
  ghost predicate HasPattern(releases: seq<Run>, id: string, name: string, pattern: seq<bool>) {
    && |releases| == |pattern|
    && forall i :: 0 <= i < |releases| ==>
       id in releases[i] && (Metric(releases[i][id], name).Some? <==> pattern[i])
  }

  ghost predicate Keeps(releases: seq<Run>, id: string, name: string)
    requires releases != [] && id in releases[0] && id in releases[|releases| - 1]
  {
    var first, last := Metric(releases[0][id], name), Metric(releases[|releases| - 1][id], name);
    first.Some? && last.Some? ==> !Worsens(name, first.value, last.value)
  }

  /** Every passing chain with this pattern of known values keeps the case's value. */
  ghost predicate AlwaysKept(pattern: seq<bool>, id: string, name: string, tolerance: real, maxRate: real,
                             approved: bool)
    requires pattern != []
  {
    forall releases :: Chain(releases, tolerance, maxRate, approved) && HasPattern(releases, id, name, pattern) ==>
      Keeps(releases, id, name)
  }

  // A chain of one case with a gap: one value before it, another after it.

  function WitnessRecord(id: string, name: string, value: Option<real>): Record {
    Record(Some(id), Metrics(if value.Some? then map[VALIDITY := 1.0, name := value.value] else map[VALIDITY := 1.0]),
           {})
  }

  /** The value of release `i` in a chain that goes from `first` to `last` behind a gap. */
  function WitnessValue(pattern: seq<bool>, gap: nat, first: real, last: real, i: nat): Option<real>
    requires i < |pattern|
  {
    if !pattern[i] then None else Some(if i < gap then first else last)
  }

  function Witness(id: string, name: string, pattern: seq<bool>, gap: nat, first: real, last: real)
      : (releases: seq<Run>)
    ensures |releases| == |pattern|
    ensures forall i :: 0 <= i < |pattern| ==>
      releases[i] == map[id := WitnessRecord(id, name, WitnessValue(pattern, gap, first, last, i))]
  {
    seq(|pattern|, i requires 0 <= i < |pattern| =>
      map[id := WitnessRecord(id, name, WitnessValue(pattern, gap, first, last, i))])
  }

  lemma WitnessMetric(id: string, name: string, value: Option<real>)
    requires name != VALIDITY
    ensures var record := WitnessRecord(id, name, value);
      && Metric(record, name) == value && Metric(record, VALIDITY) == Some(1.0)
      && forall other :: other != VALIDITY && other != name ==> Metric(record, other) == None
  {
  }

  lemma NamesAreNotValidity()
    ensures !HigherIsBetter(VALIDITY) && !LowerIsBetter(VALIDITY) && COST != VALIDITY
    ensures NUMBERS != VALIDITY && UNSUPPORTED != VALIDITY && COST != NUMBERS && COST != UNSUPPORTED
    ensures NUMBERS != UNSUPPORTED
  {
  }

  /** The same value, or none on one of the two sides. */
  predicate SameOrUnknown(before: Option<real>, after: Option<real>) {
    before.None? || after.None? || before == after
  }

  /** Between two releases of one case that never disagree on a metric the gate passes. */
  lemma AgreementPasses(id: string, before: Record, after: Record, tolerance: real, maxRate: real, approved: bool)
    requires 0.0 <= tolerance && 0.0 <= maxRate
    requires before.metrics.Metrics? && Metric(after, VALIDITY) == Some(1.0) && after.hardFailures == {}
    requires forall name :: name != VALIDITY ==> SameOrUnknown(Metric(before, name), Metric(after, name))
    ensures Passes(map[id := before], map[id := after], tolerance, maxRate, approved)
  {
    var baseline: Run, candidate: Run := map[id := before], map[id := after];
    var cases := {id};
    assert baseline.Keys == candidate.Keys == cases == baseline.Keys * candidate.Keys;
    assert baseline[id] == before && candidate[id] == after;
    assert FailureRate([after]) == 0.0;
    hide *;
    NamesDiffer();
    OnlyCase(candidate, id);
    forall name
      ensures AverageOver(baseline, cases, name) == Metric(before, name)
      ensures AverageOver(candidate, cases, name) == Metric(after, name)
    {
      AverageOfOnlyCase(baseline, id, name);
      AverageOfOnlyCase(candidate, id, name);
    }
    NoRegressions(baseline, candidate, cases, tolerance);
    AgreementGivesNothing(id, baseline, candidate);
    NothingDue(baseline, candidate, tolerance, maxRate, approved);
  }

  lemma NamesDiffer()
    ensures COST != VALIDITY
  {
  }

  lemma AverageOfOnlyCase(run: Run, id: string, name: string)
    requires run.Keys == {id}
    ensures AverageOver(run, {id}, name) == Metric(run[id], name)
  {
    OnlyCase(run, id);
    hide RecordsOf, Metric;
    AverageOfOne(run[id], name);
  }

  lemma NothingDue(baseline: Run, candidate: Run, tolerance: real, maxRate: real, approved: bool)
    requires baseline.Keys == candidate.Keys
    requires forall name :: !Regresses(baseline, candidate, tolerance, name)
    requires forall reason :: !SomeCaseGives(reason, baseline, candidate)
    requires FailureRate(RecordsOf(candidate, baseline.Keys * candidate.Keys)) <= maxRate
    requires !Expensive(CostGrowth(baseline, candidate))
    ensures Passes(baseline, candidate, tolerance, maxRate, approved)
  {
    forall reason ensures !Due(reason, baseline, candidate, tolerance, maxRate, approved) {
      DueMeans(reason, baseline, candidate, tolerance, maxRate, approved);
      hide *;
    }
    hide Due;
  }

  lemma AverageOfOne(record: Record, name: string)
    ensures Mean(ValuesOf([record], name)) == Metric(record, name)
  {
    var value := Metric(record, name);
    assert [record][..0] == [] && ValuesOf([], name) == [];
    assert ValuesOf([record], name) == if value.Some? then [value.value] else [];
    if value.Some? {
      assert [value.value][..0] == [];
      assert SumOf([value.value]) == value.value;
    }
  }

  lemma NoRegressions(baseline: Run, candidate: Run, cases: set<string>, tolerance: real)
    requires 0.0 <= tolerance && cases == baseline.Keys * candidate.Keys
    requires forall name :: name != VALIDITY ==>
      SameOrUnknown(AverageOver(baseline, cases, name), AverageOver(candidate, cases, name))
    ensures forall name :: !Regresses(baseline, candidate, tolerance, name)
    ensures !Expensive(CostGrowth(baseline, candidate))
  {
    NamesAreNotValidity();
    hide AverageOver, HigherIsBetter, LowerIsBetter;
  }

  lemma AgreementGivesNothing(id: string, baseline: Run, candidate: Run)
    requires baseline.Keys == candidate.Keys == {id}
    requires baseline[id].metrics.Metrics? && Metric(candidate[id], VALIDITY) == Some(1.0)
    requires forall name :: name != VALIDITY ==> SameOrUnknown(Metric(baseline[id], name), Metric(candidate[id], name))
    ensures forall reason :: !SomeCaseGives(reason, baseline, candidate)
  {
    NamesAreNotValidity();
    hide Metric;
    assert SameOrUnknown(Metric(baseline[id], NUMBERS), Metric(candidate[id], NUMBERS));
    assert SameOrUnknown(Metric(baseline[id], UNSUPPORTED), Metric(candidate[id], UNSUPPORTED));
  }

  lemma OnlyCase(run: Run, id: string)
    requires run.Keys == {id}
    ensures RecordsOf(run, {id}) == [run[id]]
  {
    var listing := SortedListing({id});
    DistinctSize(listing);
    assert listing == [id];
  }

  /** Around a gap the witness never changes a known value from one release to the next. */
  lemma WitnessPasses(id: string, name: string, pattern: seq<bool>, gap: nat, first: real, last: real, i: nat,
                      tolerance: real, maxRate: real, approved: bool)
    requires name != VALIDITY && 0.0 <= tolerance && 0.0 <= maxRate
    requires gap < |pattern| && !pattern[gap] && i + 1 < |pattern|
    ensures var releases := Witness(id, name, pattern, gap, first, last);
      Passes(releases[i], releases[i + 1], tolerance, maxRate, approved)
  {
    var before := WitnessValue(pattern, gap, first, last, i);
    var after := WitnessValue(pattern, gap, first, last, i + 1);
    assert SameOrUnknown(before, after);
    WitnessMetric(id, name, before);
    WitnessMetric(id, name, after);
    var x, y := WitnessRecord(id, name, before), WitnessRecord(id, name, after);
    assert x.metrics.Metrics? && y.hardFailures == {};
    hide *;
    forall other | other != VALIDITY ensures SameOrUnknown(Metric(x, other), Metric(y, other)) {
      AgreeWhere(other == name, Metric(x, other), Metric(y, other), before, after);
    }
    AgreementPasses(id, x, y, tolerance, maxRate, approved);
  }

  /** The witness is a passing chain, and its averages are its only case's values. */
  lemma WitnessChain(id: string, name: string, pattern: seq<bool>, gap: nat, first: real, last: real, tolerance: real,
                     maxRate: real, approved: bool)
    requires name != VALIDITY && 0.0 <= tolerance && 0.0 <= maxRate
    requires gap < |pattern| && !pattern[gap]
    ensures var releases := Witness(id, name, pattern, gap, first, last);
      && Chain(releases, tolerance, maxRate, approved)
      && forall i :: 0 <= i < |releases| ==>
         && id in releases[i]
         && Metric(releases[i][id], name) == WitnessValue(pattern, gap, first, last, i)
         && AverageOf(releases[i], name) == WitnessValue(pattern, gap, first, last, i)
  {
    var releases := Witness(id, name, pattern, gap, first, last);
    forall i, j | 0 <= i < j < |releases| && j == i + 1
      ensures Passes(releases[i], releases[j], tolerance, maxRate, approved)
    {
      WitnessPasses(id, name, pattern, gap, first, last, i, tolerance, maxRate, approved);
    }
    hide Passes, Metric, AverageOver, WitnessRecord, WitnessValue;
    forall i | 0 <= i < |releases|
      ensures id in releases[i]
      ensures Metric(releases[i][id], name) == WitnessValue(pattern, gap, first, last, i)
      ensures AverageOf(releases[i], name) == WitnessValue(pattern, gap, first, last, i)
    {
      WitnessMetric(id, name, WitnessValue(pattern, gap, first, last, i));
      AverageOfOnlyCase(releases[i], id, name);
    }
  }

  lemma AgreeWhere(named: bool, x: Option<real>, y: Option<real>, before: Option<real>, after: Option<real>)
    requires named ==> x == before && y == after
    requires !named ==> x == None && y == None
    requires SameOrUnknown(before, after)
    ensures SameOrUnknown(x, y)
  {
  }

  lemma WitnessEnds(pattern: seq<bool>, gap: nat, first: real, last: real)
    requires gap < |pattern| && !pattern[gap] && pattern[0] && pattern[|pattern| - 1]
    ensures WitnessValue(pattern, gap, first, last, 0) == Some(first)
    ensures WitnessValue(pattern, gap, first, last, |pattern| - 1) == Some(last)
    ensures forall i :: 0 <= i < |pattern| ==> (WitnessValue(pattern, gap, first, last, i).Some? <==> pattern[i])
    ensures forall i :: 0 <= i < |pattern| && pattern[i] ==>
      WitnessValue(pattern, gap, first, last, i).value == if i < gap then first else last
  {
  }

  /** A gap anywhere between a known first and a known last value lets the value get worse. */
  lemma GapLosesValue(id: string, name: string, pattern: seq<bool>, gap: nat, tolerance: real, maxRate: real,
                      approved: bool)
    requires IsGuarded(name) && 0.0 <= tolerance && 0.0 <= maxRate
    requires gap < |pattern| && !pattern[gap] && pattern[0] && pattern[|pattern| - 1]
    ensures !AlwaysKept(pattern, id, name, tolerance, maxRate, approved)
  {
    hide *;
    var first, last := WorseValue(name);
    WitnessChain(id, name, pattern, gap, first, last, tolerance, maxRate, approved);
    WitnessEnds(pattern, gap, first, last);
    ChainLosesValue(Witness(id, name, pattern, gap, first, last), id, name, pattern, first, last, tolerance, maxRate,
                    approved);
  }

  lemma WorseValue(name: string) returns (first: real, last: real)
    requires IsGuarded(name)
    ensures name != VALIDITY && Worsens(name, first, last)
  {
    NamesAreNotValidity();
    if name == NUMBERS {
      first, last := 1.0, 0.0;
    } else {
      first, last := 0.0, 1.0;
    }
  }

  lemma ChainLosesValue(releases: seq<Run>, id: string, name: string, pattern: seq<bool>, first: real, last: real,
                        tolerance: real, maxRate: real, approved: bool)
    requires |releases| == |pattern| > 0 && Chain(releases, tolerance, maxRate, approved)
    requires forall i :: 0 <= i < |releases| ==>
      id in releases[i] && (Metric(releases[i][id], name).Some? <==> pattern[i])
    requires Metric(releases[0][id], name) == Some(first)
    requires Metric(releases[|releases| - 1][id], name) == Some(last)
    requires Worsens(name, first, last)
    ensures !AlwaysKept(pattern, id, name, tolerance, maxRate, approved)
  {
    hide Metric, Chain, Worsens;
    assert HasPattern(releases, id, name, pattern);
    assert !Keeps(releases, id, name);
  }

  lemma KnownThroughoutKeeps(releases: seq<Run>, id: string, name: string, tolerance: real, maxRate: real,
                             approved: bool)
    requires IsGuarded(name) && Chain(releases, tolerance, maxRate, approved)
    requires forall i :: 0 <= i < |releases| ==> id in releases[i] && Metric(releases[i][id], name).Some?
    ensures Keeps(releases, id, name)
  {
    hide Passes, Metric;
    ChainKeepsCase(releases, tolerance, maxRate, approved, id);
  }

  /**
   * For every pattern of known values with both ends known: all passing chains
   * of that pattern keep the case's exactness (or unsupported rate) if and
   * only if no release leaves the value out.
   */
  lemma KeptIffNeverMissing(id: string, name: string, pattern: seq<bool>, tolerance: real, maxRate: real,
                            approved: bool)
    requires IsGuarded(name) && 0.0 <= tolerance && 0.0 <= maxRate
    requires pattern != [] && pattern[0] && pattern[|pattern| - 1]
    ensures AlwaysKept(pattern, id, name, tolerance, maxRate, approved) <==> forall i :: 0 <= i < |pattern| ==>
      pattern[i]
  {
    if gap: nat :| gap < |pattern| && !pattern[gap] {
      GapLosesValue(id, name, pattern, gap, tolerance, maxRate, approved);
    } else {
      forall releases | Chain(releases, tolerance, maxRate, approved) && HasPattern(releases, id, name, pattern)
        ensures Keeps(releases, id, name)
      {
        hide Passes, Metric;
        KnownThroughoutKeeps(releases, id, name, tolerance, maxRate, approved);
      }
    }
  }

  /** The shortest such chain: both gates pass, though exactness falls from one to zero. */
  lemma MissingMetricHidesFall() returns (releases: seq<Run>)
    ensures |releases| == 3 && Chain(releases, 0.0, 0.0, false)
    ensures forall run :: run in releases ==> "case" in run
    ensures Metric(releases[0]["case"], NUMBERS) == Some(1.0)
    ensures Metric(releases[1]["case"], NUMBERS) == None
    ensures Metric(releases[2]["case"], NUMBERS) == Some(0.0)
  {
    var pattern := [true, false, true];
    NamesAreNotValidity();
    releases := Witness("case", NUMBERS, pattern, 1, 1.0, 0.0);
    WitnessChain("case", NUMBERS, pattern, 1, 1.0, 0.0, 0.0, 0.0, false);
    hide Passes, Metric, Chain, AverageOf;
  }

  // Averages and costs.

  /** Every release knows the average exactly where the pattern says so. */
  ghost predicate HasAverages(releases: seq<Run>, name: string, pattern: seq<bool>) {
    && |releases| == |pattern|
    && forall i :: 0 <= i < |releases| ==> (AverageOf(releases[i], name).Some? <==> pattern[i])
  }

  /** The last average is at most one tolerance a gate worse than the first. */
  ghost predicate StaysWithin(releases: seq<Run>, name: string, tolerance: real)
    requires releases != []
  {
    var loss := LossBetween(AverageOf(releases[0], name), AverageOf(releases[|releases| - 1], name),
                            HigherIsBetter(name));
    loss.Some? ==> loss.value <= (|releases| - 1) as real * tolerance
  }

  ghost predicate AlwaysWithin(pattern: seq<bool>, name: string, tolerance: real, maxRate: real, approved: bool)
    requires pattern != []
  {
    forall releases :: Chain(releases, tolerance, maxRate, approved) && HasAverages(releases, name, pattern) ==>
      StaysWithin(releases, name, tolerance)
  }

  lemma GapHidesLoss(name: string, pattern: seq<bool>, gap: nat, tolerance: real, maxRate: real, approved: bool)
    requires (HigherIsBetter(name) || LowerIsBetter(name)) && 0.0 <= tolerance && 0.0 <= maxRate
    requires gap < |pattern| && !pattern[gap] && pattern[0] && pattern[|pattern| - 1]
    ensures !AlwaysWithin(pattern, name, tolerance, maxRate, approved)
  {
    NamesAreNotValidity();
    hide HigherIsBetter, LowerIsBetter, Passes, Metric, Witness, Chain, AverageOf, WitnessValue;
    var drop := (|pattern| - 1) as real * tolerance + 1.0;
    var first, last := if HigherIsBetter(name) then drop else 0.0, if HigherIsBetter(name) then 0.0 else drop;
    var releases := Witness("case", name, pattern, gap, first, last);
    WitnessChain("case", name, pattern, gap, first, last, tolerance, maxRate, approved);
    WitnessEnds(pattern, gap, first, last);
    assert HasAverages(releases, name, pattern);
    assert !StaysWithin(releases, name, tolerance);
  }

  /** An average stays within one tolerance a gate over all passing chains if and only if no release leaves it out. */
  lemma BoundedIffNeverMissing(name: string, pattern: seq<bool>, tolerance: real, maxRate: real, approved: bool)
    requires (HigherIsBetter(name) || LowerIsBetter(name)) && 0.0 <= tolerance && 0.0 <= maxRate
    requires pattern != [] && pattern[0] && pattern[|pattern| - 1]
    ensures AlwaysWithin(pattern, name, tolerance, maxRate, approved)
       <==> forall i :: 0 <= i < |pattern| ==> pattern[i]
  {
    hide HigherIsBetter, LowerIsBetter, Chain, AverageOf;
    if gap: nat :| gap < |pattern| && !pattern[gap] {
      GapHidesLoss(name, pattern, gap, tolerance, maxRate, approved);
    } else {
      forall releases | Chain(releases, tolerance, maxRate, approved) && HasAverages(releases, name, pattern)
        ensures StaysWithin(releases, name, tolerance)
      {
        ChainBoundsLoss(releases, tolerance, maxRate, approved, name);
      }
    }
  }

  /** Known costs are not negative. */
  ghost predicate HasCosts(releases: seq<Run>, pattern: seq<bool>) {
    && HasAverages(releases, COST, pattern)
    && forall i :: 0 <= i < |releases| && pattern[i] ==> AverageOf(releases[i], COST).value >= 0.0
  }

  /** The last cost is at most the first, compounded by ten percent a gate. */
  ghost predicate CostStaysWithin(releases: seq<Run>)
    requires releases != []
  {
    var first, last := AverageOf(releases[0], COST), AverageOf(releases[|releases| - 1], COST);
    first.Some? && last.Some? ==> last.value <= Power(1.10, |releases| - 1) * first.value
  }

  ghost predicate CostAlwaysWithin(pattern: seq<bool>, tolerance: real, maxRate: real)
    requires pattern != []
  {
    forall releases :: Chain(releases, tolerance, maxRate, false) && HasCosts(releases, pattern) ==>
      CostStaysWithin(releases)
  }

  lemma GapHidesCost(pattern: seq<bool>, gap: nat, tolerance: real, maxRate: real)
    requires 0.0 <= tolerance && 0.0 <= maxRate
    requires gap < |pattern| && !pattern[gap] && pattern[0] && pattern[|pattern| - 1]
    ensures !CostAlwaysWithin(pattern, tolerance, maxRate)
  {
    NamesAreNotValidity();
    hide *;
    WitnessChain("case", COST, pattern, gap, 0.0, 1.0, tolerance, maxRate, false);
    WitnessEnds(pattern, gap, 0.0, 1.0);
    ChainLosesCost(Witness("case", COST, pattern, gap, 0.0, 1.0), pattern, tolerance, maxRate);
  }

  lemma ChainLosesCost(releases: seq<Run>, pattern: seq<bool>, tolerance: real, maxRate: real)
    requires |releases| == |pattern| > 0 && Chain(releases, tolerance, maxRate, false)
    requires forall i :: 0 <= i < |releases| ==> (AverageOf(releases[i], COST).Some? <==> pattern[i])
    requires forall i :: 0 <= i < |releases| && pattern[i] ==> AverageOf(releases[i], COST).value >= 0.0
    requires AverageOf(releases[0], COST) == Some(0.0) && AverageOf(releases[|releases| - 1], COST) == Some(1.0)
    ensures !CostAlwaysWithin(pattern, tolerance, maxRate)
  {
    hide AverageOf, Chain, Power, COST;
    assert HasAverages(releases, COST, pattern);
    assert HasCosts(releases, pattern);
    GrowsFromNothing(Power(1.10, |releases| - 1));
    assert !CostStaysWithin(releases);
  }

  lemma GrowsFromNothing(factor: real)
    ensures factor * 0.0 < 1.0
  {
  }

  /** Without approvals the cost compounds by ten percent at most if and only if no release leaves it out. */
  lemma CostBoundedIffNeverMissing(pattern: seq<bool>, tolerance: real, maxRate: real)
    requires 0.0 <= tolerance && 0.0 <= maxRate
    requires pattern != [] && pattern[0] && pattern[|pattern| - 1]
    ensures CostAlwaysWithin(pattern, tolerance, maxRate) <==> forall i :: 0 <= i < |pattern| ==> pattern[i]
  {
    hide Chain, AverageOf, Power;
    if gap: nat :| gap < |pattern| && !pattern[gap] {
      GapHidesCost(pattern, gap, tolerance, maxRate);
    } else {
      forall releases | Chain(releases, tolerance, maxRate, false) && HasCosts(releases, pattern)
        ensures CostStaysWithin(releases)
      {
        ChainBoundsCost(releases, tolerance, maxRate);
      }
    }
  }
}
