/**
 * How well signals read off a prediction find the documents that failed:
 * rankings under a budget, the oracle as their ceiling, and the signals' score.
 */
module BlindDetection {
  import opened Reals
  import opened Sequences
  import opened Sorting

  datatype Identity = Identity(suite: string, caseId: string)

  datatype Signals = Signals(
    identity: Identity,
    charCount: nat,
    emptyOutput: bool,
    repetitionRatio: real,
    tableSchemaFailure: bool,
    raggedRatio: real,
    alphaRatio: real,
    lengthZ: real,
    truncatedTail: bool)

  // Repetition: windows of consecutive words that occurred before.

  const REPETITION_NGRAM := 8

  /** The windows of `size` consecutive words, in order. */
  function Windows(words: seq<string>, size: nat): (windows: seq<seq<string>>)
    ensures |windows| == if |words| < size then 0 else |words| - size + 1
    ensures forall i :: 0 <= i < |windows| ==> windows[i] == words[i..i + size]
  {
    seq(if |words| < size then 0 else |words| - size + 1,
        i requires 0 <= i < if |words| < size then 0 else |words| - size + 1 => words[i..i + size])
  }

  /** How many positions hold a kept value. */
  ghost function CountIn<T>(s: seq<T>, keep: set<T>): nat {
    if s == [] then 0 else CountIn(s[..|s| - 1], keep) + if s[|s| - 1] in keep then 1 else 0
  }

  lemma {:induction false} CountInMore<T>(s: seq<T>, keep: set<T>, x: T)
    requires x !in keep
    ensures CountIn(s, keep + {x}) == CountIn(s, keep) + multiset(s)[x]
  {
    if s != [] {
      var n := |s| - 1;
      CountInMore(s[..n], keep, x);
      assert s == s[..n] + [s[n]];
    }
  }

  lemma {:induction false} CountInAll<T>(s: seq<T>, keep: set<T>)
    ensures Elements(s) <= keep ==> CountIn(s, keep) == |s|
    ensures CountIn(s, {}) == 0
  {
    if s != [] {
      var n := |s| - 1;
      CountInAll(s[..n], keep);
      assert s[n] in Elements(s) && Elements(s[..n]) <= Elements(s);
    }
  }

  /** The table of how often each value occurs. */
  method Tally<T(==)>(values: seq<T>) returns (seen: map<T, nat>)
    ensures seen.Keys == Elements(values)
    ensures forall x :: x in seen ==> seen[x] == multiset(values)[x] > 0
  {
    seen := map[];
    for i := 0 to |values|
      invariant seen.Keys == Elements(values[..i])
      invariant forall x :: x in seen ==> seen[x] == multiset(values[..i])[x] > 0
    {
      var x := values[i];
      assert values[..i + 1] == values[..i] + [x];
      seen := seen[x := 1 + if x in seen then seen[x] else 0];
    }
    assert values[..|values|] == values;
  }

  /** Sums a table of occurrences: all windows, and those that repeat an earlier one. */
  method CountRepeats(words: seq<string>, size: nat) returns (repeats: nat, total: nat)
    ensures total == |Windows(words, size)|
    ensures repeats == total - |Elements(Windows(words, size))|
  {
    var windows := Windows(words, size);
    var seen := Tally(windows);
    hide *;
    repeats, total := 0, 0;
    var rest := seen.Keys;
    CountInAll(windows, seen.Keys);
    assert seen.Keys - rest == {};
    while rest != {}
      invariant rest <= seen.Keys
      invariant total == CountIn(windows, seen.Keys - rest)
      invariant repeats == total - |seen.Keys - rest|
      decreases rest
    {
      var window :| window in rest;
      CountInMore(windows, seen.Keys - rest, window);
      assert seen.Keys - (rest - {window}) == (seen.Keys - rest) + {window};
      total := total + seen[window];
      if seen[window] > 1 {
        repeats := repeats + (seen[window] - 1);
      }
      rest := rest - {window};
    }
    assert seen.Keys - rest == seen.Keys;
  }

  /** The share of windows that repeat an earlier window; short word lists have none. */
  method RepetitionRatio(words: seq<string>) returns (ratio: real)
    ensures ratio == RepeatShare(words)
  {
    if |words| < 2 * REPETITION_NGRAM {
      return 0.0;
    }
    var repeats, total := CountRepeats(words, REPETITION_NGRAM);
    ratio := if total != 0 then repeats as real / total as real else 0.0;
  }

  ghost function RepeatShare(words: seq<string>): real {
    var windows := Windows(words, REPETITION_NGRAM);
    if |words| < 2 * REPETITION_NGRAM then 0.0
    else (|windows| - |Elements(windows)|) as real / |windows| as real
  }

  /** The evaluator's own repetition rate counts from one full window on, where the detector waits for two. */
  method RepetitionRate(words: seq<string>, size: nat) returns (rate: real)
    ensures |words| < size ==> rate == 0.0
    ensures |words| >= size ==>
      rate == (|Windows(words, size)| - |Elements(Windows(words, size))|) as real / |Windows(words, size)| as real
  {
    if |words| < size {
      return 0.0;
    }
    var repeats, total := CountRepeats(words, size);
    rate := repeats as real / total as real;
  }

  /** The words repeat with the given period. */
  ghost predicate Periodic(words: seq<string>, period: nat) {
    forall i :: 0 <= i < |words| - period ==> words[i] == words[i + period]
  }

  lemma WindowOnePeriodBack(words: seq<string>, size: nat, period: nat, i: nat)
    requires Periodic(words, period) && period <= i < |Windows(words, size)|
    ensures Windows(words, size)[i] == Windows(words, size)[i - period]
  {
    var back := words[i - period..i - period + size];
    forall k | 0 <= k < size ensures words[i..i + size][k] == back[k] {
      assert words[i - period + k] == words[i - period + k + period];
    }
    assert words[i..i + size] == back;
  }

  lemma {:induction false} WindowInFirstPeriod(words: seq<string>, size: nat, period: nat, i: nat) returns (j: nat)
    requires 0 < period && Periodic(words, period) && i < |Windows(words, size)|
    ensures j < period && j < |Windows(words, size)| && Windows(words, size)[j] == Windows(words, size)[i]
    decreases i
  {
    hide Windows, Periodic;
    if i >= period {
      WindowOnePeriodBack(words, size, period, i);
      j := WindowInFirstPeriod(words, size, period, i - period);
    } else {
      j := i;
    }
  }

  /** A decode loop of period p leaves at most p different windows, so its ratio is at least 1 - p / windows. */
  lemma LoopIsDetected(words: seq<string>, period: nat)
    requires 0 < period && Periodic(words, period) && |words| >= 2 * REPETITION_NGRAM
    ensures RepeatShare(words) >= 1.0 - period as real / (|words| - 7) as real
  {
    var windows := Windows(words, REPETITION_NGRAM);
    var few := windows[..if period < |windows| then period else |windows|];
    forall window ensures window in windows <==> window in few {
      if i :| 0 <= i < |windows| && windows[i] == window {
        var j := WindowInFirstPeriod(words, REPETITION_NGRAM, period, i);
        assert few[j] == window;
      }
    }
    assert Elements(windows) == Elements(few);
    ElementsAtMostLength(few);
    ElementsAtMostLength(windows);
    ShareBound(|windows|, |Elements(windows)|, period);
  }

  lemma ShareBound(total: nat, distinct: nat, period: nat)
    requires total > 0 && distinct <= period && distinct <= total
    ensures (total - distinct) as real / total as real >= 1.0 - period as real / total as real
  {
    DifferenceOfShares(total, distinct);
    RatioMonotone(distinct as real, period as real, total as real);
  }

  lemma DifferenceOfShares(total: nat, part: nat)
    requires 0 < total && part <= total
    ensures (total - part) as real / total as real == 1.0 - part as real / total as real
  {
    assert (total - part) as real == total as real - part as real;
    OneMinusRatio(part as real, total as real);
  }

  /** The ratio is a share, and it is zero exactly when no window occurs twice (or there are too few words). */
  lemma RepeatShareMeaning(words: seq<string>)
    ensures 0.0 <= RepeatShare(words) < 1.0
    ensures RepeatShare(words) == 0.0 <==>
      |words| < 2 * REPETITION_NGRAM || Distinct(Windows(words, REPETITION_NGRAM))
  {
    var windows := Windows(words, REPETITION_NGRAM);
    DistinctIffSize(windows);
    ElementsAtMostLength(windows);
    if |windows| > 0 {
      assert windows[0] in Elements(windows);
      var total, distinct := |windows|, |Elements(windows)|;
      assert distinct > 0;
      ShareIsProper(total, distinct);
    }
  }

  lemma ShareIsProper(total: nat, distinct: nat)
    requires 0 < distinct <= total
    ensures 0.0 <= (total - distinct) as real / total as real < 1.0
    ensures (total - distinct) as real / total as real == 0.0 <==> distinct == total
  {
    DifferenceOfShares(total, distinct);
    assert distinct as real / total as real > 0.0;
  }

  // The suspicion score.

  function Flag(b: bool): real {
    if b then 1.0 else 0.0
  }

  function Weighted(s: Signals): real {
    0.30 * Min(1.0, s.repetitionRatio / 0.30)
    + 0.20 * Flag(s.tableSchemaFailure)
    + 0.15 * Min(1.0, s.raggedRatio / 0.20)
    + 0.15 * Min(1.0, Max(0.0, (0.70 - s.alphaRatio) / 0.40))
    + 0.10 * Min(1.0, Abs(s.lengthZ) / 3.0)
    + 0.10 * Flag(s.truncatedTail)
  }

  function Score(s: Signals): real {
    if s.emptyOutput then 1.0 else Min(1.0, Weighted(s))
  }

  /** One prediction is at least as suspicious as another on every signal. */
  ghost predicate AtLeastAsSuspicious(s: Signals, t: Signals) {
    && (t.emptyOutput ==> s.emptyOutput)
    && (t.tableSchemaFailure ==> s.tableSchemaFailure)
    && (t.truncatedTail ==> s.truncatedTail)
    && s.repetitionRatio >= t.repetitionRatio
    && s.raggedRatio >= t.raggedRatio
    && s.alphaRatio <= t.alphaRatio
    && Abs(s.lengthZ) >= Abs(t.lengthZ)
  }

  ghost predicate RatiosAreShares(s: Signals) {
    s.repetitionRatio >= 0.0 && s.raggedRatio >= 0.0
  }

  /** The weights add up to one, so the final clamp never fires; the score is zero only without any signal. */
  lemma ScoreMeaning(s: Signals)
    requires RatiosAreShares(s)
    ensures 0.0 <= Weighted(s) <= 1.0
    ensures Score(s) == 0.0 <==>
      && !s.emptyOutput && !s.tableSchemaFailure && !s.truncatedTail
      && s.repetitionRatio == 0.0 && s.raggedRatio == 0.0 && s.alphaRatio >= 0.70 && s.lengthZ == 0.0
  {
  }

  /** Empty output alone is fully suspicious; otherwise every signal adds its own share, up to its cap. */
  lemma SignalsAddUp(s: Signals)
    requires RatiosAreShares(s)
    ensures s.emptyOutput ==> Score(s) == 1.0
    ensures !s.emptyOutput ==>
      Score(s) == (if s.repetitionRatio <= 0.3 then s.repetitionRatio else 0.3)
                  + (if s.tableSchemaFailure then 0.2 else 0.0)
                  + 0.75 * (if s.raggedRatio <= 0.2 then s.raggedRatio else 0.2)
                  + 0.375 * (if s.alphaRatio >= 0.7 then 0.0 else if s.alphaRatio <= 0.3 then 0.4
                             else 0.7 - s.alphaRatio)
                  + (if -3.0 <= s.lengthZ <= 3.0 then (if s.lengthZ < 0.0 then -s.lengthZ else s.lengthZ) / 30.0
                     else 0.1)
                  + (if s.truncatedTail then 0.1 else 0.0)
  {
    ScoreMeaning(s);
  }

  lemma CappedIsMonotone(x: real, y: real)
    ensures x >= y ==> Min(1.0, x) >= Min(1.0, y) && Min(1.0, Max(0.0, x)) >= Min(1.0, Max(0.0, y))
  {
  }

  lemma WeightedIsMonotone(s: Signals, t: Signals)
    requires AtLeastAsSuspicious(s, t)
    ensures Weighted(s) >= Weighted(t)
  {
    CappedIsMonotone(s.repetitionRatio / 0.30, t.repetitionRatio / 0.30);
    CappedIsMonotone(s.raggedRatio / 0.20, t.raggedRatio / 0.20);
    CappedIsMonotone((0.70 - s.alphaRatio) / 0.40, (0.70 - t.alphaRatio) / 0.40);
    CappedIsMonotone(Abs(s.lengthZ) / 3.0, Abs(t.lengthZ) / 3.0);
    hide Min, Max, Abs;
  }

  lemma ScoreIsMonotone(s: Signals, t: Signals)
    requires RatiosAreShares(s) && RatiosAreShares(t) && AtLeastAsSuspicious(s, t)
    ensures Score(s) >= Score(t)
  {
    ScoreMeaning(s);
    ScoreMeaning(t);
    WeightedIsMonotone(s, t);
    hide Weighted, Abs, Max;
  }

  // Rankings.

  predicate IdentityLe(a: Identity, b: Identity) {
    PairLe((a.suite, a.caseId), (b.suite, b.caseId))
  }

  function FailuresOf(counts: map<Identity, nat>, identity: Identity): nat {
    if identity in counts then counts[identity] else 0
  }

  function Weight(counts: map<Identity, nat>): Identity -> int {
    identity => FailuresOf(counts, identity)
  }

  /** The slice list[:budget] of the source's language. */
  function FirstOf<T>(list: seq<T>, budget: int): seq<T> {
    if budget >= |list| then list
    else if budget >= 0 then list[..budget]
    else if |list| + budget >= 0 then list[..|list| + budget]
    else []
  }

  function Coverage(ranking: seq<Identity>, counts: map<Identity, nat>, budget: int): int {
    Sum(Weight(counts), FirstOf(ranking, budget))
  }

  function IdentitiesOf(signals: seq<Signals>): seq<Identity> {
    seq(|signals|, i requires 0 <= i < |signals| => signals[i].identity)
  }

  predicate SuspicionLe(s: Signals, t: Signals) {
    if Score(s) != Score(t) then Score(s) > Score(t) else IdentityLe(s.identity, t.identity)
  }

  predicate LengthLe(s: Signals, t: Signals) {
    if s.charCount != t.charCount then s.charCount > t.charCount else IdentityLe(s.identity, t.identity)
  }

  function BlindRanking(signals: seq<Signals>): seq<Identity> {
    IdentitiesOf(Sort(SuspicionLe, signals))
  }

  function LengthRanking(signals: seq<Signals>): seq<Identity> {
    IdentitiesOf(Sort(LengthLe, signals))
  }

  predicate OracleLe(counts: map<Identity, nat>, a: Identity, b: Identity) {
    if FailuresOf(counts, a) != FailuresOf(counts, b) then FailuresOf(counts, a) > FailuresOf(counts, b)
    else IdentityLe(a, b)
  }

  function ByFailures(counts: map<Identity, nat>): (Identity, Identity) -> bool {
    (a, b) => OracleLe(counts, a, b)
  }

  function OracleRanking(identities: seq<Identity>, counts: map<Identity, nat>): seq<Identity> {
    Sort(ByFailures(counts), identities)
  }

  lemma IdentityOrder()
    ensures TotalPreorder(IdentityLe)
  {
    hide PairLe;
    PairOrder();
  }

  lemma OracleOrder(counts: map<Identity, nat>)
    ensures TotalPreorder(ByFailures(counts))
  {
    IdentityOrder();
    hide IdentityLe, FailuresOf;
  }

  lemma {:induction false} IdentitiesPermute(s: seq<Signals>, t: seq<Signals>)
    requires multiset(s) == multiset(t)
    ensures multiset(IdentitiesOf(s)) == multiset(IdentitiesOf(t))
    decreases |s|
  {
    SameLength(s, t);
    if s != [] {
      hide *;
      var n := |s| - 1;
      assert s[n] in multiset(t);
      var k :| 0 <= k < |t| && t[k] == s[n];
      assert s[..n] + s[n + 1..] == s[..n];
      MultisetWithout(s, n);
      MultisetWithout(t, k);
      IdentitiesPermute(s[..n], t[..k] + t[k + 1..]);
      IdentitiesWithout(s, n);
      IdentitiesWithout(t, k);
    }
  }

  lemma IdentitiesWithout(s: seq<Signals>, k: nat)
    requires k < |s|
    ensures multiset(IdentitiesOf(s)) == multiset(IdentitiesOf(s[..k] + s[k + 1..])) + multiset{s[k].identity}
  {
    var identities := IdentitiesOf(s);
    assert identities[..k] + identities[k + 1..] == IdentitiesOf(s[..k] + s[k + 1..]);
    hide IdentitiesOf;
    MultisetWithout(identities, k);
    assert identities[k] in multiset(identities);
  }

  /** All three rankings list the same identities. */
  lemma RankingsPermute(signals: seq<Signals>, counts: map<Identity, nat>)
    ensures multiset(BlindRanking(signals)) == multiset(IdentitiesOf(signals))
    ensures multiset(LengthRanking(signals)) == multiset(IdentitiesOf(signals))
    ensures multiset(OracleRanking(IdentitiesOf(signals), counts)) == multiset(IdentitiesOf(signals))
  {
    hide SuspicionLe, LengthLe, Sort;
    SortPermutes(SuspicionLe, signals);
    SortPermutes(LengthLe, signals);
    IdentitiesPermute(Sort(SuspicionLe, signals), signals);
    IdentitiesPermute(Sort(LengthLe, signals), signals);
    SortPermutes(ByFailures(counts), IdentitiesOf(signals));
  }

  /** The suite decides, then the case. */
  predicate Earlier(a: Identity, b: Identity) {
    StringLe(a.suite, b.suite) && (a.suite == b.suite ==> StringLe(a.caseId, b.caseId))
  }

  /** The blind ranking lists higher scores first, and equal scores by identity. */
  lemma BlindRankingOrder(signals: seq<Signals>) returns (ranked: seq<Signals>)
    ensures IdentitiesOf(ranked) == BlindRanking(signals) && multiset(ranked) == multiset(signals)
    ensures forall i, j :: 0 <= i < j < |ranked| ==>
      || Score(ranked[i]) > Score(ranked[j])
      || (Score(ranked[i]) == Score(ranked[j]) && Earlier(ranked[i].identity, ranked[j].identity))
  {
    ranked := Sort(SuspicionLe, signals);
    SuspicionOrder();
    SortPermutes(SuspicionLe, signals);
    SortSorts(SuspicionLe, signals);
    EarlierIsOrder();
    hide Score, Sort, IdentityLe, Earlier;
  }

  /** The length ranking lists longer predictions first, and equally long ones by identity. */
  lemma LengthRankingOrder(signals: seq<Signals>) returns (ranked: seq<Signals>)
    ensures IdentitiesOf(ranked) == LengthRanking(signals) && multiset(ranked) == multiset(signals)
    ensures forall i, j :: 0 <= i < j < |ranked| ==>
      || ranked[i].charCount > ranked[j].charCount
      || (ranked[i].charCount == ranked[j].charCount && Earlier(ranked[i].identity, ranked[j].identity))
  {
    ranked := Sort(LengthLe, signals);
    LengthOrder();
    SortPermutes(LengthLe, signals);
    SortSorts(LengthLe, signals);
    EarlierIsOrder();
    hide Score, Sort, IdentityLe, Earlier;
  }

  /** The oracle ranking lists more failures first, and equal counts by identity. */
  lemma OracleRankingOrder(identities: seq<Identity>, counts: map<Identity, nat>)
    ensures var ranked := OracleRanking(identities, counts);
      && multiset(ranked) == multiset(identities)
      && forall i, j :: 0 <= i < j < |ranked| ==>
         || FailuresOf(counts, ranked[i]) > FailuresOf(counts, ranked[j])
         || (FailuresOf(counts, ranked[i]) == FailuresOf(counts, ranked[j]) && Earlier(ranked[i], ranked[j]))
  {
    OracleOrder(counts);
    SortPermutes(ByFailures(counts), identities);
    SortSorts(ByFailures(counts), identities);
    EarlierIsOrder();
    hide Sort, IdentityLe, Earlier, FailuresOf;
  }

  lemma EarlierIsOrder()
    ensures forall a, b :: IdentityLe(a, b) <==> Earlier(a, b)
  {
    hide StringLe;
    StringOrder();
  }

  lemma SuspicionOrder()
    ensures TotalPreorder(SuspicionLe)
  {
    IdentityOrder();
    hide IdentityLe, Score;
  }

  lemma LengthOrder()
    ensures TotalPreorder(LengthLe)
  {
    IdentityOrder();
    hide IdentityLe;
  }

  /** At every budget, no document that the blind ranking selects scores below one it leaves out. */
  lemma SelectionIsMostSuspicious(signals: seq<Signals>, budget: int) returns (chosen: seq<Signals>, rest: seq<Signals>)
    ensures multiset(chosen + rest) == multiset(signals)
    ensures IdentitiesOf(chosen) == FirstOf(BlindRanking(signals), budget)
    ensures forall s, t :: s in chosen && t in rest ==> Score(s) >= Score(t)
  {
    var ranked := BlindRankingOrder(signals);
    hide Score, Earlier, BlindRanking;
    var k := Selected(|ranked|, budget);
    FirstOfIsPrefix(ranked, budget);
    FirstOfIsPrefix(BlindRanking(signals), budget);
    chosen, rest := ranked[..k], ranked[k..];
    assert chosen + rest == ranked;
    assert IdentitiesOf(chosen) == IdentitiesOf(ranked)[..k];
  }

  // The ceiling.

  ghost predicate Descending<T>(weight: T -> int, s: seq<T>) {
    forall i, j :: 0 <= i < j < |s| ==> weight(s[i]) >= weight(s[j])
  }

  /** What a weight has above a threshold. */
  function Excess<T>(weight: T -> int, threshold: int): T -> int {
    x => if weight(x) > threshold then weight(x) - threshold else 0
  }

  lemma {:induction false} SumAtMostExcess<T>(weight: T -> int, threshold: int, s: seq<T>)
    ensures Sum(weight, s) <= Sum(Excess(weight, threshold), s) + |s| * threshold
    ensures Sum(Excess(weight, threshold), s) >= 0
  {
    if s != [] {
      var n := |s| - 1;
      SumAtMostExcess(weight, threshold, s[..n]);
      assert |s| * threshold == n * threshold + threshold;
    }
  }

  lemma {:induction false} SumIsExcess<T>(weight: T -> int, threshold: int, s: seq<T>)
    requires forall i :: 0 <= i < |s| ==> weight(s[i]) >= threshold
    ensures Sum(weight, s) == Sum(Excess(weight, threshold), s) + |s| * threshold
  {
    if s != [] {
      var n := |s| - 1;
      SumIsExcess(weight, threshold, s[..n]);
      assert |s| * threshold == n * threshold + threshold;
    }
  }

  lemma {:induction false} NoExcess<T>(weight: T -> int, threshold: int, s: seq<T>)
    requires forall i :: 0 <= i < |s| ==> weight(s[i]) <= threshold
    ensures Sum(Excess(weight, threshold), s) == 0
    ensures Sum(weight, s) <= |s| * threshold
  {
    if s != [] {
      var n := |s| - 1;
      NoExcess(weight, threshold, s[..n]);
      assert |s| * threshold == n * threshold + threshold;
    }
  }

  /** No arrangement has a heavier prefix than one in descending order. */
  lemma DescendingPrefixIsHeaviest<T>(weight: T -> int, best: seq<T>, other: seq<T>, k: nat)
    requires multiset(best) == multiset(other) && Descending(weight, best) && k <= |best|
    ensures k <= |other|
    ensures Sum(weight, best[..k]) >= Sum(weight, other[..k])
  {
    SameLength(best, other);
    if k > 0 {
      var threshold := weight(best[k - 1]);
      var excess := Excess(weight, threshold);
      SumIsExcess(weight, threshold, best[..k]);
      NoExcess(weight, threshold, best[k..]);
      hide *;
      SumAtMostExcess(weight, threshold, other[..k]);
      SumAtMostExcess(weight, threshold, other[k..]);
      SumSplit(excess, other, k);
      SumSplit(excess, best, k);
      SumPermutation(excess, best, other);
    }
  }

  /** A prefix of k out of n in descending order carries at least k / n of the whole. */
  lemma DescendingPrefixIsFair<T>(weight: T -> int, best: seq<T>, k: nat)
    requires Descending(weight, best) && k <= |best|
    ensures |best| * Sum(weight, best[..k]) >= k * Sum(weight, best)
  {
    SumSplit(weight, best, k);
    if k > 0 {
      var bound := weight(best[k - 1]);
      DescendingAround(weight, best, k, bound);
      hide *;
      FairShare(|best|, k, Sum(weight, best[..k]), Sum(weight, best[k..]), Sum(weight, best), bound);
    } else {
      assert best[..k] == [];
    }
  }

  lemma SumSplit<T>(weight: T -> int, s: seq<T>, k: nat)
    requires k <= |s|
    ensures Sum(weight, s) == Sum(weight, s[..k]) + Sum(weight, s[k..])
  {
    assert s[..k] + s[k..] == s;
    SumConcat(weight, s[..k], s[k..]);
  }

  /** The prefix weighs at least k times the bound, the rest at most its length times the bound. */
  lemma DescendingAround<T>(weight: T -> int, best: seq<T>, k: nat, bound: int)
    requires Descending(weight, best) && 0 < k <= |best| && bound == weight(best[k - 1])
    ensures Sum(weight, best[..k]) >= k * bound
    ensures Sum(weight, best[k..]) <= (|best| - k) * bound
  {
    SumIsExcess(weight, bound, best[..k]);
    SumAtMostExcess(weight, bound, best[..k]);
    NoExcess(weight, bound, best[k..]);
  }

  lemma FairShare(n: nat, k: nat, prefix: int, suffix: int, whole: int, bound: int)
    requires k <= n && whole == prefix + suffix && prefix >= k * bound && suffix <= (n - k) * bound
    ensures n * prefix >= k * whole
  {
    assert (n - k) * prefix >= (n - k) * (k * bound);
    assert k * suffix <= k * ((n - k) * bound);
    assert (n - k) * (k * bound) == k * ((n - k) * bound);
    assert n * prefix == k * prefix + (n - k) * prefix;
  }

  // The evaluation.

  datatype Row = Row(
    budget: int,
    budgetFraction: real,
    blind: int,
    oracle: int,
    randomExpected: real,
    blindFraction: real,
    oracleFraction: real,
    blindVsOracle: real,
    blindVsRandom: real,
    overlap: nat,
    overlapFraction: real,
    lengthOnly: int,
    lengthVsOracle: real,
    beatsLength: bool)

  function Ratio(x: real, y: real): real {
    if y != 0.0 then x / y else 0.0
  }

  function RandomExpected(total: int, budget: int, size: nat): real
    requires size > 0
  {
    total as real * budget as real / size as real
  }

  function Total(signals: seq<Signals>, counts: map<Identity, nat>): int {
    Sum(Weight(counts), IdentitiesOf(signals))
  }

  /** The row of one budget, column by column. */
  ghost predicate RowFor(row: Row, signals: seq<Signals>, counts: map<Identity, nat>, budget: int)
    requires signals != []
  {
    var blind, oracle := BlindRanking(signals), OracleRanking(IdentitiesOf(signals), counts);
    && IsDraftOf(row, blind, oracle, counts, budget, Total(signals, counts), |signals|)
    && row.lengthOnly == Coverage(LengthRanking(signals), counts, budget)
    && row.lengthVsOracle == Ratio(row.lengthOnly as real, row.oracle as real)
    && row.beatsLength == (row.blind > row.lengthOnly)
  }

  /** Builds the rows, then fills their length-only columns; an empty corpus has no mean and is refused. */
  method Evaluate(signals: seq<Signals>, counts: map<Identity, nat>, budgets: seq<int>)
      returns (result: Option<seq<Row>>)
    ensures result.None? <==> signals == []
    ensures result.Some? ==> RowsFor(result.value, signals, counts, budgets)
  {
    if signals == [] {
      return None;
    }
    var rows := Drafts(signals, counts, budgets);
    rows := FillLengths(rows, signals, counts, budgets, LengthRanking(signals));
    result := Some(rows);
    hide *;
  }

  method Drafts(signals: seq<Signals>, counts: map<Identity, nat>, budgets: seq<int>) returns (rows: seq<Row>)
    requires signals != []
    ensures DraftsFor(rows, signals, counts, budgets)
  {
    hide *;
    var blindRanked, oracleRanked := BlindRanking(signals), OracleRanking(IdentitiesOf(signals), counts);
    var total := Total(signals, counts);
    BlindSize(signals);
    rows := [];
    NoDrafts(signals, counts);
    for i := 0 to |budgets|
      invariant DraftsFor(rows, signals, counts, budgets[..i])
    {
      var row := DraftRow(blindRanked, oracleRanked, counts, budgets[i], total);
      DraftOf(row, signals, counts, budgets[i]);
      DraftsMore(rows, signals, counts, budgets[..i], row, budgets[i]);
      assert budgets[..i + 1] == budgets[..i] + [budgets[i]];
      rows := rows + [row];
    }
    assert budgets[..|budgets|] == budgets;
  }

  /** The columns of one budget that do not need the length ranking. */
  method DraftRow(blindRanked: seq<Identity>, oracleRanked: seq<Identity>, counts: map<Identity, nat>, budget: int,
                  total: int)
      returns (row: Row)
    requires blindRanked != []
    ensures IsDraftOf(row, blindRanked, oracleRanked, counts, budget, total, |blindRanked|)
  {
    var blind := Coverage(blindRanked, counts, budget);
    var oracle := Coverage(oracleRanked, counts, budget);
    var randomExpected := RandomExpected(total, budget, |blindRanked|);
    var overlap := |Elements(FirstOf(blindRanked, budget)) * Elements(FirstOf(oracleRanked, budget))|;
    row := Row(budget, budget as real / |blindRanked| as real, blind, oracle, randomExpected,
               Ratio(blind as real, total as real), Ratio(oracle as real, total as real),
               Ratio(blind as real, oracle as real), Ratio(blind as real, randomExpected),
               overlap, Ratio(overlap as real, budget as real), 0, 0.0, false);
    hide Coverage, RandomExpected, Elements, FirstOf, Ratio;
  }

  ghost predicate IsDraftOf(row: Row, blindRanked: seq<Identity>, oracleRanked: seq<Identity>,
                            counts: map<Identity, nat>, budget: int, total: int, size: nat)
    requires size > 0
  {
    && row.budget == budget
    && row.budgetFraction == budget as real / size as real
    && row.blind == Coverage(blindRanked, counts, budget)
    && row.oracle == Coverage(oracleRanked, counts, budget)
    && row.randomExpected == RandomExpected(total, budget, size)
    && row.blindFraction == Ratio(row.blind as real, total as real)
    && row.oracleFraction == Ratio(row.oracle as real, total as real)
    && row.blindVsOracle == Ratio(row.blind as real, row.oracle as real)
    && row.blindVsRandom == Ratio(row.blind as real, row.randomExpected)
    && row.overlap == |Elements(FirstOf(blindRanked, budget)) * Elements(FirstOf(oracleRanked, budget))|
    && row.overlapFraction == Ratio(row.overlap as real, budget as real)
  }

  lemma BlindSize(signals: seq<Signals>)
    ensures |BlindRanking(signals)| == |signals|
  {
    SortPermutes(SuspicionLe, signals);
  }

  method FillLengths(drafts: seq<Row>, signals: seq<Signals>, counts: map<Identity, nat>, budgets: seq<int>,
                     lengthRanked: seq<Identity>)
      returns (rows: seq<Row>)
    requires signals != [] && lengthRanked == LengthRanking(signals) && DraftsFor(drafts, signals, counts, budgets)
    ensures RowsFor(rows, signals, counts, budgets)
  {
    hide RowFor, IsDraft, WithLength, Coverage, LengthRanking;
    rows := drafts;
    for i := 0 to |drafts|
      invariant |rows| == |drafts|
      invariant forall j :: 0 <= j < i ==> RowFor(rows[j], signals, counts, budgets[j])
      invariant forall j :: i <= j < |rows| ==> rows[j] == drafts[j]
    {
      DraftCompleted(rows[i], signals, counts, budgets[i]);
      rows := rows[i := WithLength(rows[i], Coverage(lengthRanked, counts, rows[i].budget))];
    }
  }

  function WithLength(row: Row, lengthOnly: int): Row {
    row.(lengthOnly := lengthOnly, lengthVsOracle := Ratio(lengthOnly as real, row.oracle as real),
         beatsLength := row.blind > lengthOnly)
  }

  ghost predicate RowsFor(rows: seq<Row>, signals: seq<Signals>, counts: map<Identity, nat>, budgets: seq<int>)
    requires signals != []
  {
    |rows| == |budgets| && forall i :: 0 <= i < |rows| ==> RowFor(rows[i], signals, counts, budgets[i])
  }

  ghost predicate DraftsFor(rows: seq<Row>, signals: seq<Signals>, counts: map<Identity, nat>, budgets: seq<int>)
    requires signals != []
  {
    |rows| == |budgets| && forall i :: 0 <= i < |rows| ==> IsDraft(rows[i], signals, counts, budgets[i])
  }

  lemma NoDrafts(signals: seq<Signals>, counts: map<Identity, nat>)
    requires signals != []
    ensures DraftsFor([], signals, counts, [])
  {
  }

  lemma DraftsMore(rows: seq<Row>, signals: seq<Signals>, counts: map<Identity, nat>, budgets: seq<int>,
                   row: Row, budget: int)
    requires signals != []
    requires DraftsFor(rows, signals, counts, budgets) && IsDraft(row, signals, counts, budget)
    ensures DraftsFor(rows + [row], signals, counts, budgets + [budget])
  {
    hide IsDraft;
  }

  /** A row that lacks only its length-only columns. */
  ghost predicate IsDraft(row: Row, signals: seq<Signals>, counts: map<Identity, nat>, budget: int)
    requires signals != []
  {
    row.budget == budget
    && RowFor(WithLength(row, Coverage(LengthRanking(signals), counts, budget)), signals, counts, budget)
  }

  lemma DraftCompleted(row: Row, signals: seq<Signals>, counts: map<Identity, nat>, budget: int)
    requires signals != [] && IsDraft(row, signals, counts, budget)
    ensures row.budget == budget
    ensures RowFor(WithLength(row, Coverage(LengthRanking(signals), counts, budget)), signals, counts, budget)
  {
    hide RowFor, WithLength, Coverage, LengthRanking;
  }

  lemma DraftOf(row: Row, signals: seq<Signals>, counts: map<Identity, nat>, budget: int)
    requires signals != []
    requires |BlindRanking(signals)| == |signals|
    requires IsDraftOf(row, BlindRanking(signals), OracleRanking(IdentitiesOf(signals), counts), counts, budget,
                       Total(signals, counts), |signals|)
    ensures IsDraft(row, signals, counts, budget)
  {
    hide Coverage, BlindRanking, OracleRanking, LengthRanking, IdentitiesOf, Elements, FirstOf, Ratio, RandomExpected,
      Total;
  }

  /** The number of documents a budget selects. */
  function Selected(size: nat, budget: int): nat {
    if budget >= size then size else if budget >= 0 then budget else if size + budget >= 0 then size + budget else 0
  }

  lemma FirstOfIsPrefix<T>(list: seq<T>, budget: int)
    ensures Selected(|list|, budget) <= |list|
    ensures FirstOf(list, budget) == list[..Selected(|list|, budget)]
  {
  }

  /** At every budget, no other order of the same documents reaches more failures than the oracle's. */
  lemma OracleIsCeiling(identities: seq<Identity>, counts: map<Identity, nat>, ranking: seq<Identity>, budget: int)
    requires multiset(ranking) == multiset(identities)
    ensures 0 <= Coverage(ranking, counts, budget) <= Coverage(OracleRanking(identities, counts), counts, budget)
  {
    hide *;
    var oracle := OracleRanking(identities, counts);
    OracleDescends(identities, counts);
    OraclePermutes(identities, counts);
    SameLength(oracle, ranking);
    CoverageOfPrefix(oracle, counts, budget);
    CoverageOfPrefix(ranking, counts, budget);
    DescendingPrefixIsHeaviest(Weight(counts), oracle, ranking, Selected(|ranking|, budget));
  }

  lemma CoverageOfPrefix(ranking: seq<Identity>, counts: map<Identity, nat>, budget: int)
    ensures Selected(|ranking|, budget) <= |ranking|
    ensures Coverage(ranking, counts, budget) == Sum(Weight(counts), ranking[..Selected(|ranking|, budget)]) >= 0
  {
    FirstOfIsPrefix(ranking, budget);
    FailuresAreNotNegative(counts, FirstOf(ranking, budget));
  }

  lemma OraclePermutes(identities: seq<Identity>, counts: map<Identity, nat>)
    ensures multiset(OracleRanking(identities, counts)) == multiset(identities)
    ensures |OracleRanking(identities, counts)| == |identities|
  {
    SortPermutes(ByFailures(counts), identities);
  }

  lemma FailuresAreNotNegative(counts: map<Identity, nat>, identities: seq<Identity>)
    ensures Sum(Weight(counts), identities) >= 0
  {
    SumNotNegative(Weight(counts), identities);
  }

  lemma {:induction false} SumNotNegative<T>(weight: T -> int, s: seq<T>)
    requires forall x :: weight(x) >= 0
    ensures Sum(weight, s) >= 0
  {
    if s != [] {
      SumNotNegative(weight, s[..|s| - 1]);
    }
  }

  lemma OracleDescends(identities: seq<Identity>, counts: map<Identity, nat>)
    ensures Descending(Weight(counts), OracleRanking(identities, counts))
  {
    OracleOrder(counts);
    SortSorts(ByFailures(counts), identities);
    hide IdentityLe, FailuresOf, Sort;
  }

  /**
   * At every budget within the corpus, the oracle reaches at least the share of
   * failures that random selection expects.
   */
  lemma OracleBeatsRandom(identities: seq<Identity>, counts: map<Identity, nat>, budget: int)
    requires 0 <= budget <= |identities|
    ensures |identities| * Coverage(OracleRanking(identities, counts), counts, budget)
         >= budget * Sum(Weight(counts), identities)
  {
    hide *;
    var oracle := OracleRanking(identities, counts);
    OracleDescends(identities, counts);
    OraclePermutes(identities, counts);
    CoverageOfPrefix(oracle, counts, budget);
    SelectedWithin(|oracle|, budget);
    SumPermutation(Weight(counts), oracle, identities);
    DescendingPrefixIsFair(Weight(counts), oracle, budget);
  }

  lemma SelectedWithin(size: nat, budget: int)
    requires 0 <= budget <= size
    ensures Selected(size, budget) == budget
  {
  }

  /** Every row: the blind mass is that of the selected documents, none of which scores below one left out. */
  lemma RowSelectsMostSuspicious(row: Row, signals: seq<Signals>, counts: map<Identity, nat>, budget: int)
      returns (chosen: seq<Signals>, rest: seq<Signals>)
    requires signals != [] && RowFor(row, signals, counts, budget)
    ensures multiset(chosen + rest) == multiset(signals)
    ensures row.blind == Sum(Weight(counts), IdentitiesOf(chosen))
    ensures forall s, t :: s in chosen && t in rest ==> Score(s) >= Score(t)
    ensures 0 <= budget <= |signals| ==> |chosen| == budget
  {
    chosen, rest := SelectionIsMostSuspicious(signals, budget);
    assert row.blind == Coverage(BlindRanking(signals), counts, budget);
    BlindSize(signals);
    FirstOfIsPrefix(BlindRanking(signals), budget);
    assert |IdentitiesOf(chosen)| == |chosen|;
    hide RowFor, Score, BlindRanking, Weight, IdentitiesOf;
  }

  /** What every row of an evaluation satisfies. */
  lemma RowMeaning(row: Row, signals: seq<Signals>, counts: map<Identity, nat>, budget: int)
    requires signals != [] && RowFor(row, signals, counts, budget)
    ensures 0 <= row.blind <= row.oracle && 0 <= row.lengthOnly <= row.oracle
    ensures 0.0 <= row.blindVsOracle <= 1.0 && 0.0 <= row.lengthVsOracle <= 1.0
    ensures 0.0 <= row.blindFraction <= row.oracleFraction <= 1.0
    ensures budget >= |signals| ==> row.blind == row.oracle == row.lengthOnly == Total(signals, counts)
    ensures row.randomExpected * |signals| as real == budget as real * Total(signals, counts) as real
    ensures 0 <= budget <= |signals| ==> row.oracle as real >= row.randomExpected
    ensures 0 <= budget <= |signals| && Total(signals, counts) > 0 ==> row.oracleFraction >= row.budgetFraction
    ensures Distinct(IdentitiesOf(signals)) ==>
      2 * Selected(|signals|, budget) - |signals| <= row.overlap <= Selected(|signals|, budget)
    ensures Distinct(IdentitiesOf(signals)) && budget >= 0 ==> 0.0 <= row.overlapFraction <= 1.0
  {
    RowMasses(row, signals, counts, budget);
    RowExpectation(row, signals, counts, budget);
    RowShares(row, signals, counts, budget);
    if Distinct(IdentitiesOf(signals)) {
      RowOverlap(row, signals, counts, budget);
    }
  }

  lemma RowExpectation(row: Row, signals: seq<Signals>, counts: map<Identity, nat>, budget: int)
    requires signals != [] && RowFor(row, signals, counts, budget)
    ensures row.randomExpected * |signals| as real == budget as real * Total(signals, counts) as real
  {
    hide Total, Coverage, BlindRanking, LengthRanking, OracleRanking, Ratio, RandomExpected, Elements, FirstOf;
    ExpectationOf(Total(signals, counts), budget, |signals|);
  }

  lemma ExpectationOf(total: int, budget: int, size: nat)
    requires size > 0
    ensures RandomExpected(total, budget, size) * size as real == budget as real * total as real
  {
  }

  /** Both rankings stay below the oracle, and at full budget all three reach everything. */
  lemma RowMasses(row: Row, signals: seq<Signals>, counts: map<Identity, nat>, budget: int)
    requires signals != [] && RowFor(row, signals, counts, budget)
    ensures 0 <= row.blind <= row.oracle <= Total(signals, counts) && 0 <= row.lengthOnly <= row.oracle
    ensures budget >= |signals| ==> row.blind == row.oracle == row.lengthOnly == Total(signals, counts)
    ensures 0 <= budget <= |signals| ==> |signals| * row.oracle >= budget * Total(signals, counts)
  {
    var identities := IdentitiesOf(signals);
    hide Coverage, BlindRanking, LengthRanking, OracleRanking, Ratio, RandomExpected, Elements, FirstOf;
    RankingsPermute(signals, counts);
    OracleIsCeiling(identities, counts, BlindRanking(signals), budget);
    OracleIsCeiling(identities, counts, LengthRanking(signals), budget);
    OracleWithinTotal(signals, counts, budget);
    if 0 <= budget <= |signals| {
      OracleBeatsRandom(identities, counts, budget);
    }
    if budget >= |signals| {
      WholeCorpus(signals, counts, budget);
    }
  }

  lemma RowShares(row: Row, signals: seq<Signals>, counts: map<Identity, nat>, budget: int)
    requires signals != [] && RowFor(row, signals, counts, budget)
    ensures 0.0 <= row.blindVsOracle <= 1.0 && 0.0 <= row.lengthVsOracle <= 1.0
    ensures 0.0 <= row.blindFraction <= row.oracleFraction <= 1.0
    ensures 0 <= budget <= |signals| ==> row.oracle as real >= row.randomExpected
    ensures 0 <= budget <= |signals| && Total(signals, counts) > 0 ==> row.oracleFraction >= row.budgetFraction
  {
    RowMasses(row, signals, counts, budget);
    var total := Total(signals, counts);
    if 0 <= budget <= |signals| {
      ShareOf(|signals|, row.oracle, budget, total);
    }
    hide Total, Coverage, BlindRanking, LengthRanking, OracleRanking, Ratio, RandomExpected, Elements, FirstOf;
    RatioOfPart(row.blind as real, row.oracle as real);
    RatioOfPart(row.lengthOnly as real, row.oracle as real);
    RatioOfPart(row.oracle as real, total as real);
    RatioOfPart(row.blind as real, total as real);
    SharesInOrder(row.blind as real, row.oracle as real, total as real);
  }

  lemma RowOverlap(row: Row, signals: seq<Signals>, counts: map<Identity, nat>, budget: int)
    requires signals != [] && RowFor(row, signals, counts, budget) && Distinct(IdentitiesOf(signals))
    ensures 2 * Selected(|signals|, budget) - |signals| <= row.overlap <= Selected(|signals|, budget)
    ensures budget >= 0 ==> 0.0 <= row.overlapFraction <= 1.0
  {
    var identities := IdentitiesOf(signals);
    hide Coverage, BlindRanking, LengthRanking, OracleRanking, Ratio, RandomExpected, Elements, FirstOf, Total,
      Selected;
    RankingsPermute(signals, counts);
    OverlapBounds(BlindRanking(signals), OracleRanking(identities, counts), identities, budget);
    SelectedAtMost(|signals|, budget);
    if budget >= 0 {
      RatioOfPart(row.overlap as real, budget as real);
    }
  }

  lemma SelectedAtMost(size: nat, budget: int)
    ensures budget >= 0 ==> Selected(size, budget) <= budget
  {
  }

  /** The whole mass is an upper bound at every budget. */
  lemma OracleWithinTotal(signals: seq<Signals>, counts: map<Identity, nat>, budget: int)
    ensures 0 <= Coverage(OracleRanking(IdentitiesOf(signals), counts), counts, budget) <= Total(signals, counts)
  {
    var identities := IdentitiesOf(signals);
    var oracle, weight := OracleRanking(identities, counts), Weight(counts);
    OraclePermutes(identities, counts);
    CoverageOfPrefix(oracle, counts, budget);
    var k := Selected(|oracle|, budget);
    SumSplit(weight, oracle, k);
    FailuresAreNotNegative(counts, oracle[k..]);
    SumPermutation(weight, oracle, identities);
    hide Coverage, OracleRanking, Selected, Weight, Sum;
  }

  lemma SharesInOrder(x: real, y: real, whole: real)
    requires x <= y && 0.0 <= whole
    ensures Ratio(x, whole) <= Ratio(y, whole)
  {
    if whole > 0.0 {
      RatioMonotone(x, y, whole);
    }
  }

  lemma ShareOf(size: nat, mass: int, budget: int, total: int)
    requires size > 0 && size * mass >= budget * total
    ensures mass as real >= RandomExpected(total, budget, size)
    ensures total > 0 ==> Ratio(mass as real, total as real) >= budget as real / size as real
  {
    assert size as real * mass as real >= total as real * budget as real by {
      assert (size * mass) as real == size as real * mass as real;
      assert (budget * total) as real == total as real * budget as real;
    }
    var expected := RandomExpected(total, budget, size);
    assert expected * size as real == total as real * budget as real;
    if total > 0 {
      RatioOrder(mass as real, total as real, budget as real, size as real);
    }
  }

  lemma RatioOfPart(x: real, y: real)
    requires 0.0 <= x <= y
    ensures 0.0 <= Ratio(x, y) <= 1.0
  {
  }

  lemma WholeCorpus(signals: seq<Signals>, counts: map<Identity, nat>, budget: int)
    requires budget >= |signals|
    ensures Coverage(BlindRanking(signals), counts, budget) == Total(signals, counts)
    ensures Coverage(LengthRanking(signals), counts, budget) == Total(signals, counts)
    ensures Coverage(OracleRanking(IdentitiesOf(signals), counts), counts, budget) == Total(signals, counts)
  {
    var weight := Weight(counts);
    var identities := IdentitiesOf(signals);
    RankingsPermute(signals, counts);
    hide BlindRanking, LengthRanking, OracleRanking, FailuresOf;
    SameLength(BlindRanking(signals), identities);
    SameLength(LengthRanking(signals), identities);
    SameLength(OracleRanking(identities, counts), identities);
    SumPermutation(weight, BlindRanking(signals), identities);
    SumPermutation(weight, LengthRanking(signals), identities);
    SumPermutation(weight, OracleRanking(identities, counts), identities);
  }

  /** Two selections of the same size overlap at least where the corpus is too small to keep them apart. */
  lemma OverlapBounds(blind: seq<Identity>, oracle: seq<Identity>, identities: seq<Identity>, budget: int)
    requires multiset(blind) == multiset(identities) == multiset(oracle) && Distinct(identities)
    ensures var overlap := |Elements(FirstOf(blind, budget)) * Elements(FirstOf(oracle, budget))|;
      2 * Selected(|identities|, budget) - |identities| <= overlap <= Selected(|identities|, budget)
  {
    var k := Selected(|identities|, budget);
    SelectionSize(blind, identities, budget);
    SelectionSize(oracle, identities, budget);
    hide FirstOf;
    var x, y := Elements(FirstOf(blind, budget)), Elements(FirstOf(oracle, budget));
    DistinctSize(identities);
    SubsetSize(x + y, Elements(identities));
    assert |x + y| == |x| + |y| - |x * y|;
    SubsetSize(x * y, x);
  }

  lemma SelectionSize(ranking: seq<Identity>, identities: seq<Identity>, budget: int)
    requires multiset(ranking) == multiset(identities) && Distinct(identities)
    ensures |Elements(FirstOf(ranking, budget))| == Selected(|identities|, budget)
    ensures Elements(FirstOf(ranking, budget)) <= Elements(identities)
  {
    SameLength(ranking, identities);
    DistinctFromMultiset(identities, ranking);
    FirstOfIsPrefix(ranking, budget);
    DistinctSize(FirstOf(ranking, budget));
    forall x | x in ranking ensures x in identities {
      assert x in multiset(ranking);
    }
  }

  // The verdict.

  datatype Verdict = Verdict(supported: bool, beatLength: seq<int>, beatRandom: seq<int>)

  method JudgeRows(rows: seq<Row>) returns (verdict: Verdict)
    ensures verdict.supported <==>
      (exists row :: row in rows && row.beatsLength) && (exists row :: row in rows && row.blindVsRandom > 1.0)
    ensures forall budget :: budget in verdict.beatLength <==>
      exists row :: row in rows && row.beatsLength && row.budget == budget
    ensures forall budget :: budget in verdict.beatRandom <==>
      exists row :: row in rows && row.blindVsRandom > 1.0 && row.budget == budget
  {
    var beatLength: seq<int>, beatRandom: seq<int> := [], [];
    for i := 0 to |rows|
      invariant beatLength != [] <==> exists row :: row in rows[..i] && row.beatsLength
      invariant beatRandom != [] <==> exists row :: row in rows[..i] && row.blindVsRandom > 1.0
      invariant forall budget :: budget in beatLength <==>
        exists row :: row in rows[..i] && row.beatsLength && row.budget == budget
      invariant forall budget :: budget in beatRandom <==>
        exists row :: row in rows[..i] && row.blindVsRandom > 1.0 && row.budget == budget
    {
      assert rows[..i + 1] == rows[..i] + [rows[i]];
      assert rows[i] in rows[..i + 1];
      if rows[i].beatsLength {
        beatLength := beatLength + [rows[i].budget];
      }
      if rows[i].blindVsRandom > 1.0 {
        beatRandom := beatRandom + [rows[i].budget];
      }
    }
    assert rows[..|rows|] == rows;
    verdict := Verdict(beatLength != [] && beatRandom != [], beatLength, beatRandom);
  }
}
