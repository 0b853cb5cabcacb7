# Verification of the Folynta contract gate, evaluators and recovery pipeline

A Dafny model of the parts of the repository whose answers other people rely on: the gate that
keeps the public OpenAPI contract compatible, the metrics that score extraction quality, and the
scripts that recover failed benchmark cases and count what was recovered. `dafny verify
dfyconfig.toml` checks the whole project.

The modules, one file each:

- `OpenApiSchema`, `OpenApiCompat`, `OpenApiMeaning`, `OpenApiOperations`, `OpenApiCalls`,
  `OpenApiSoundness`: schema documents as graphs that references may make cyclic; the imperative
  walk over pairs of schemas with its shared `changes` and `seen`; what its reports say; the gate
  over paths, operations, parameters, bodies and responses; what that means for calls; and what a
  silent gate means for instances, by the validation keywords of JSON Schema 2020-12 (type and
  enum in section 6.1, numbers in 6.2, strings in 6.3, arrays in 6.4, required in 6.5.3).
- `EditDistance`, `Headings`, `Tables`, `BoxMatching`, `BoxCells`, `RankCorrelation`: the evaluators'
  loops, proved against edit runs, alignments, readable table structure, optimal matchings, counted
  unit cells, and swaps.
- `RunSummaries`, `OperationalRetries`, `FailureRoutes`, `AlternateCandidates`, `QualitySelection`,
  `SelectionLists`, `AcceptedSelection`, `SelectionStages`: the recovery pipeline. The disk is a map from worker to summaries and file
  hashes, a stage is a loop of guarded updates that may abort, and the claims join the stages.
- `BlindDetection`, `CursorDiff`, `TypePrinter` with `TypeReader` and `TypeMeaning`, `MergeGate` with
  `MergeGateValues` and `MergeGateGaps`, `CompletionLedger`: smaller scripts with one sharp promise
  each.
- `Sequences`, `Sorting`, `Reals`: sums, duplicate-free sequences, stable sorting, the order of
  strings, and ratios.

Conventions of the model: floats are reals, hashes are abstract values, a raised error is an `Err`
or a `None`, and a parameter stands for text normalisation. A method that loops in the source loops
here and is proved against a function or predicate, and the lemmas are about that function.

Where the code and what is written about it differ, the model follows the code:

- The gate compares a keyword only when both sides carry it. `OpenApiSoundness.AddedBoundIsMissed`
  shows a new bound that goes unreported. What its silence is worth is exact:
  `OpenApiSoundness.SilentGateDecides` says that an instance the one side accepts is accepted by the
  other if and only if the keywords, fields and items that only the other carries accept it.
- The gate reports a new required parameter or body, but not one that was optional and turns required
  (`OpenApiCalls.TurnedRequiredIsMissed`). `OpenApiCalls.CallsStayTakenIff`: every call the old
  operation takes stays taken if and only if nothing is reported and nothing turns required.
- The ledger's count of cases that required more than one round leaves out those that only later
  rounds attempted twice (`CompletionLedger.LaterRoundsAreMissed`);
  `CompletionLedger.SeveralRoundsIff` says exactly when it is right.
- The clamp on Spearman's coefficient fires when the candidate holds extra items
  (`RankCorrelation.ClampCanFire`); `RankCorrelation.ClampIsIdleIffNoExtras` shows that a length
  keeps the coefficient in [-1,1] for every candidate if and only if it leaves no room for extras.
- The merge gate's text says that critical-number regressions always fail closed. A release that
  omits the metric passes, and so does the next one with a lower value
  (`MergeGateGaps.MissingMetricHidesFall`); by `MergeGateGaps.KeptIffNeverMissing` chains of any
  length keep the value if and only if no release omits it. The same holds for the tolerance on
  averages and for the limit on costs (`BoundedIffNeverMissing`, `CostBoundedIffNeverMissing`).
- The ledger promises that a case the baseline produced is credited to the baseline, and it is. But
  credit goes by tree name, so the baseline can also be credited with a case it lacks
  (`CompletionLedger.SameNameTakesCredit`). `CompletionLedger.NamesDecideCredit` says which lists of
  tree names rule that out, and `CompletionLedger.BaselineCreditIsOwn` which trees do.
- Persistent routes and cases that still fail differ both ways: a recoverable route without records
  persists (`QualitySelection.PersistsWithoutFailing`), and an accepted candidate that still fails
  but has no route is lost (`QualitySelection.FailingWithoutPersisting`).
  `QualitySelection.PersistentAreStillFailing` states exactly when they agree.
- The detection script's coverage checks refuse a plan that names a case twice, which the retry stage
  itself lets through (`FailureRoutes.RepeatedCaseBreaksCoverage`);
  `FailureRoutes.CoverageIffNamedOnce` is an equivalence.
- The route builder refuses composites that the retry stage wrote, since the stage reads neither its
  plan's schema nor the repeat of a primary summary (`FailureRoutes.RetriedPlanIsRefused`);
  `FailureRoutes.BuilderAcceptsIff` is exact for everything the retry stage accepts.

## Model

| member | source | states |
|---|---|---|
| OpenApiSchema.ResolveReference | scripts/check_openapi_compat.py:37-48 | The loop over reference components ends at the mapping the path names, or at the schema itself when any component is missing |
| OpenApiMeaning.FollowsTrail | scripts/check_openapi_compat.py:37-48 | Following a reference ends at a mapping exactly when entry by entry its components lead there |
| OpenApiCompat.CollectTypes | scripts/check_openapi_compat.py:51-66 | The recursive union over alternatives is the set of type names of the shape |
| OpenApiMeaning.TypesAreNamed | scripts/check_openapi_compat.py:51-66 | A name is among the types of a shape exactly when some shape below it, at any depth of alternatives, names it, or is an object by its properties |
| OpenApiCompat.Comparison.CompareTypesAndEnum | scripts/check_openapi_compat.py:97-126 | A types or enum break of the pair is reported, every report stays genuine and earlier reports stay |
| OpenApiCompat.Comparison.CompareRequired | scripts/check_openapi_compat.py:128-139 | Every newly required request field and every dropped required response field is reported |
| OpenApiCompat.Comparison.CompareField | scripts/check_openapi_compat.py:140-153 | A removed field is reported and a shared one has its pair visited, with fields done earlier still done |
| OpenApiCompat.Comparison.CompareItems | scripts/check_openapi_compat.py:155-165 | The pair of item schemas has been visited when both sides have items |
| OpenApiCompat.Comparison.CompareBoundsAndPattern | scripts/check_openapi_compat.py:167-181 | All six bounds and the pattern of the pair are reported when they break |
| OpenApiCompat.Comparison.Compare | scripts/check_openapi_compat.py:79-181 | The recursion on a shared `seen` terminates and keeps the invariant that every seen and closed pair is completely reported, with only genuine reports |
| OpenApiCompat.CompareSchemas | scripts/check_openapi_compat.py:79-181 | On any two finite, possibly cyclic documents: every report names a reachable pair that breaks that way, every break of every reachable pair is reported, and silence means that no reachable pair is incompatible |
| OpenApiMeaning.TypesReportedIff | scripts/check_openapi_compat.py:97-110 | A reachable pair's types are reported exactly when both sides have some and a name of the old (request) or new (response) side is missing on the other |
| OpenApiMeaning.EnumReportedIff | scripts/check_openapi_compat.py:112-126 | An enum is reported exactly when both sides have one and a value of the side relied upon is missing on the other |
| OpenApiMeaning.RequirementReportedIff | scripts/check_openapi_compat.py:128-139 | A requirement is reported exactly when new in a request, or gone from a response, of declared properties |
| OpenApiMeaning.FieldReportedIff | scripts/check_openapi_compat.py:140-143 | A field is reported exactly when the old side declares it and the new side does not |
| OpenApiMeaning.BoundReportedIff | scripts/check_openapi_compat.py:162-177 | A bound is reported exactly when both sides have it and it excludes a quantity that the side relied upon allows |
| OpenApiMeaning.PatternReportedIff | scripts/check_openapi_compat.py:178-181 | A pattern is reported exactly when the two sides differ in it |
| OpenApiMeaning.WideningIsSilent | scripts/check_openapi_compat.py:97-181 | Added request types or enum values, and removed response ones, are never reported |
| OpenApiCompat.Task.ReachableIsSeen | scripts/check_openapi_compat.py:92-95 | Skipping seen pairs leaves out nothing reachable |
| OpenApiCompat.Task.ReachableIsReported | scripts/check_openapi_compat.py:92-181 | Once all seen pairs are done, every break of every reachable pair has a report |
| OpenApiCompat.Task.ChecksCoverPair | scripts/check_openapi_compat.py:97-181 | The separate checks together cover every kind of break and every step to a child pair |
| OpenApiSoundness.AddedDecides | scripts/check_openapi_compat.py:97-181 | For every resolved pair inside a silent comparison, cyclic documents included, an instance valid on one side is valid on the other exactly when what only the other side asks accepts it, by induction on the instance |
| OpenApiSoundness.AddedKeywordsDecide | scripts/check_openapi_compat.py:97-181 | At one pair without a break, the target accepts what the source accepts exactly when the type, enum, bounds and required fields that only it carries do |
| OpenApiSoundness.SilentGateDecides | scripts/check_openapi_compat.py:79-181 | The exact worth of a silent comparison, for every pair of documents and every instance in both directions |
| OpenApiSoundness.NothingAddedBelow | scripts/check_openapi_compat.py:97-181 | In the fragment without added keyword kinds, and for requests with old fields only, nothing more is asked at any depth of the instance |
| OpenApiSoundness.RequestSound | scripts/check_openapi_compat.py:97-181 | In the fragment, for any resolved pair inside a silent comparison: old requests with old fields stay valid |
| OpenApiSoundness.ResponseSound | scripts/check_openapi_compat.py:97-181 | In the fragment, for any resolved pair inside a silent comparison: new responses are old ones |
| OpenApiSoundness.KeywordsStayAccepted | scripts/check_openapi_compat.py:97-181 | Without a local break and without an added keyword kind, type, enum, bounds, pattern and required accept what they accepted |
| OpenApiSoundness.SilentGateKeepsRequests | scripts/check_openapi_compat.py:97-181 | With no incompatible reachable pair and no keyword kind added, every instance valid under the old schema and using only its fields is valid under the new one |
| OpenApiSoundness.SilentGateKeepsResponses | scripts/check_openapi_compat.py:97-181 | The mirror image for responses: what the new schema allows, the old one allowed |
| OpenApiSoundness.AddedBoundIsMissed | scripts/check_openapi_compat.py:167-172 | A concrete pair of documents and an instance: nothing is incompatible, and yet validity is lost |
| OpenApiOperations.LaterParametersOverride | scripts/check_openapi_compat.py:184-193 | Parameters of an operation override those of its path under the same key, and all others remain |
| OpenApiOperations.KeysOfByKey | scripts/check_openapi_compat.py:184-193 | A key is the location, a colon and the name of some usable parameter |
| OpenApiOperations.LastOfByKey | scripts/check_openapi_compat.py:184-193 | Of several parameters with the same location and name the last one counts |
| OpenApiOperations.Parameters | scripts/check_openapi_compat.py:184-193 | The loop's dictionary is the path's parameters overridden by the operation's |
| OpenApiOperations.CompareOperation | scripts/check_openapi_compat.py:222-310 | For every parameter, body, media type and response: exactly the removals and new demands that hold, and for each shared schema the report of a faithful comparison; empty exactly when the operation is compatible |
| OpenApiOperations.ExactIsCompatible | scripts/check_openapi_compat.py:222-310 | Findings that are exact for every part are empty if and only if nothing is removed, newly required or incompatible |
| OpenApiOperations.ComparePath | scripts/check_openapi_compat.py:211-221 | Adds, for every method in scope of one path and for no other, an exact account, and leaves earlier accounts exact |
| OpenApiOperations.BreakingChanges | scripts/check_openapi_compat.py:196-311 | Missing paths give the one report; otherwise the duplicate-free reports are exact for every path and operation, and empty exactly for compatible documents |
| Sequences.UniqueInOrder | scripts/check_openapi_compat.py:311 | Of repeated reports the first occurrences stay, in order |
| OpenApiCalls.ReleaseReportsIff | scripts/check_openapi_compat.py:205-227 | Removed paths, removed operations and unreadable ones are reported exactly where there are any, for the seven methods |
| OpenApiCalls.RequestFindingsIff | scripts/check_openapi_compat.py:228-283 | Findings about parameters, bodies and media types are exactly the removals and the new demands |
| OpenApiCalls.CallsStayTakenIff | scripts/check_openapi_compat.py:228-283 | For every two operations: every call the old one takes is one the new one takes if and only if nothing is reported about requests and nothing common turns required |
| OpenApiCalls.TurnedRequiredIsMissed | scripts/check_openapi_compat.py:244-250 | A parameter that turns required breaks a call and is not reported |
| OpenApiCalls.OffersStandIff | scripts/check_openapi_compat.py:284-310 | Nothing is reported about responses exactly when every status and media type offered still is, contents that are no mapping aside |
| OpenApiCalls.WidenedPlacesAreUnreported | scripts/check_openapi_compat.py:228-310 | No finding of any operation mentions a place at which a schema was only widened |
| OpenApiOperations.SilentReleaseDecides | scripts/check_openapi_compat.py:196-311 | End to end: for every parameter, body and response of releases the gate is silent about, acceptance carries over exactly when what only one release asks allows it |
| OpenApiOperations.OldRequestsStayValid | scripts/check_openapi_compat.py:196-311 | End to end: between releases the gate is silent about, a parameter or body accepted by the old release is accepted by the new one, in the fragment |
| OpenApiOperations.NewResponsesStayReadable | scripts/check_openapi_compat.py:196-311 | End to end: responses of the new release are valid responses of the old one, in the fragment |
| EditDistance.Levenshtein | benchmark/evaluators/metrics.py:71-86 | The two rolling rows with their length swap compute the edit distance of the two full sequences |
| EditDistance.DistanceIsMinimal | benchmark/evaluators/masterplan_metrics.py:99-114 | Some run of single insertions, deletions and substitutions has that length, and none is shorter |
| EditDistance.DistanceIsMetric | benchmark/evaluators/metrics.py:71-86 | Zero only on equal sequences, symmetric, triangle inequality, between the difference of lengths and the longer length |
| EditDistance.ShortestRun | benchmark/evaluators/metrics.py:71-86 | Builds an edit run as long as the table entry for every pair of prefixes |
| EditDistance.RunCostsItsLength | benchmark/evaluators/metrics.py:71-86 | No sequence of single edits beats the distance |
| EditDistance.ErrorRateMeaning | benchmark/evaluators/metrics.py:89-92 | The error rate is zero only on equality and is at most one unless the candidate is longer |
| EditDistance.ErrorRateScale | benchmark/evaluators/metrics.py:89-92 | The error rate is the number of edits for each element of the reference; against nothing it is zero or one |
| EditDistance.SimilarityMeaning | benchmark/evaluators/metrics.py:106-110 | The clamp at zero never fires; the similarity is symmetric, in [0,1] and one exactly on equality |
| EditDistance.SimilarityScale | benchmark/evaluators/metrics.py:106-110 | What the similarity lacks is the number of edits as a share of the longer side |
| Headings.WeightedLevenshtein | benchmark/evaluators/metrics.py:394-415 | The rolling rows compute the weighted distance of the two outlines |
| Headings.NoAlignmentIsCheaper | benchmark/evaluators/metrics.py:394-415 | Every order-preserving alignment costs at least the table entry |
| Headings.CheapestAlignment | benchmark/evaluators/metrics.py:394-415 | Builds an alignment that costs exactly the table entry |
| Headings.DistanceIsCheapestAlignment | benchmark/evaluators/metrics.py:394-415 | The distance is the minimum cost over all order-preserving alignments |
| Headings.SubstitutionCostBounds | benchmark/evaluators/metrics.py:402-407 | A substitution costs between zero and one, and zero only for the same level and title |
| Headings.SubstitutionCostShares | benchmark/evaluators/metrics.py:402-407 | Level and label count half each: the level all or nothing, the label by its share of edits |
| Headings.CanonicalIff | benchmark/evaluators/metrics.py:376-391 | A heading counts when its level is one to six and its label is not blank |
| Headings.CostBounds | benchmark/evaluators/metrics.py:394-415 | The distance lies between the difference of lengths and the longer outline |
| Headings.ZeroCostIffSame | benchmark/evaluators/metrics.py:394-415 | The distance is zero exactly for outlines that agree heading by heading |
| Headings.ScoreMeaning | benchmark/evaluators/metrics.py:419-434 | The score is undefined exactly for an empty or malformed reference, otherwise in [0,1], and one exactly when the normalised outlines are equal |
| Headings.ScoreScale | benchmark/evaluators/metrics.py:419-434 | What the score lacks is the cost of the cheapest alignment as a share of the longer outline |
| Tables.CanonicalTable | benchmark/evaluators/metrics.py:150-227 | Accepts exactly the tables whose cells are in bounds and pairwise disjoint, with cells in order of their corners |
| Tables.CollectCells | benchmark/evaluators/metrics.py:177-217 | The loop with its growing `occupied` set succeeds exactly on acceptable cells and returns them all |
| Tables.AddCell | benchmark/evaluators/metrics.py:200-209 | Testing a new rectangle against `occupied` decides disjointness from all earlier cells |
| Tables.CellIsUsableIff | benchmark/evaluators/metrics.py:177-199 | A cell is usable exactly with a text, whole coordinates, positive spans and an end within the table, and keeps them |
| Tables.DisjointIffApart | benchmark/evaluators/metrics.py:200-208 | Two cells share no coordinate exactly when one ends before the other begins, down or across |
| Tables.TableStructureTokens | benchmark/evaluators/metrics.py:230-248 | The nested loops emit the token serialisation row by row |
| Tables.TokensReadBack | benchmark/evaluators/metrics.py:230-248 | The tokens parse back to dimensions, header rows and every cell's place and spans |
| Tables.TokenCount | benchmark/evaluators/metrics.py:230-248 | Two tokens for the table, two for each row, one for each cell |
| Tables.PerfectScoreMeansSameTopology | benchmark/evaluators/metrics.py:282-286 | A pair of accepted tables scores in [0,1], and one exactly when the topologies are equal |
| Tables.PairScoreCountsEdits | benchmark/evaluators/metrics.py:282-286 | What a pair's score lacks is the edits between the token lists as a share of the longer one |
| Tables.CellOrderIsIrrelevant | benchmark/evaluators/metrics.py:150-227 | Listing the cells of a table in another order gives the same canonical table, or the same refusal |
| Tables.TableStructureSimilarity | benchmark/evaluators/metrics.py:251-292 | The mean of the pairs' scores over the longer list; one exactly when every table has an equal counterpart |
| BoxMatching.IouMeaning | benchmark/evaluators/masterplan_metrics.py:253-262 | Overlap of valid boxes is symmetric, in [0,1] and one exactly for equal boxes |
| BoxCells.IouCountsCells | benchmark/evaluators/masterplan_metrics.py:253-262 | On boxes with whole corners the overlap is the number of shared unit cells over the number of cells that either covers |
| BoxCells.IouIgnoresUnit | benchmark/evaluators/masterplan_metrics.py:253-262 | The overlap is the same in every unit of length, so whole corners stand for all rational ones |
| BoxCells.CandidateIff | benchmark/evaluators/masterplan_metrics.py:299-315 | Two blocks are a candidate exactly when on one page they share at least half the cells they cover |
| BoxMatching.Candidates | benchmark/evaluators/masterplan_metrics.py:299-315 | The nested loops collect exactly the pairs on one page whose overlap reaches the threshold |
| BoxMatching.Select | benchmark/evaluators/masterplan_metrics.py:316-329 | Taking free pairs in order is one-to-one, and every candidate conflicts with a chosen pair of at least its overlap |
| BoxMatching.GreedyMatches | benchmark/evaluators/masterplan_metrics.py:299-329 | A one-to-one set of candidate pairs in which every other candidate conflicts with a chosen pair of higher overlap, or of the same overlap at an earlier expected or then actual block |
| BoxMatching.CoveringIsHalfOptimal | benchmark/evaluators/masterplan_metrics.py:299-329 | Any one-to-one matching that is covered this way weighs at most twice as much |
| BoxMatching.GreedyIsHalfOptimal | benchmark/evaluators/masterplan_metrics.py:299-329 | Half the overlap of every one-to-one matching of candidates is reached |
| BoxMatching.GreedyIsMaximal | benchmark/evaluators/masterplan_metrics.py:299-329 | No candidate pair can be added |
| BoxMatching.MatchingFits | benchmark/evaluators/masterplan_metrics.py:399-406 | A matching is no larger than either side, so precision and recall are at most one |
| BoxMatching.TotalAdds | benchmark/evaluators/masterplan_metrics.py:445-457 | The overlap of a matching is the sum of its pairs' overlaps |
| BoxMatching.TotalBounds | benchmark/evaluators/masterplan_metrics.py:445-457 | The overlap of a matching is between half its size and its size |
| BoxMatching.LayoutMetrics | benchmark/evaluators/masterplan_metrics.py:391-457 | The four values in terms of one greedy matching; source-page accuracy always equals recall, and mean overlap lies between half of recall and recall |
| RankCorrelation.RankCorrelations | benchmark/evaluators/masterplan_metrics.py:364-388 | Undefined exactly for short, missing or repeating orders, zero when an item is absent, otherwise both coefficients of the ranks |
| RankCorrelation.CountPairs | benchmark/evaluators/masterplan_metrics.py:373-384 | The loops count inversions, pairs and squared rank differences |
| RankCorrelation.DeltasAreComplementary | benchmark/evaluators/masterplan_metrics.py:383-388 | Squared differences to the identity and to the reversal add up to n(n²-1)/3 for every permutation |
| RankCorrelation.SpearmanOfReordering | benchmark/evaluators/masterplan_metrics.py:383-388 | On a reordering the coefficient is in [-1,1] unclamped, one only for the same order and minus one only for the reversal |
| RankCorrelation.SpearmanIsCorrelation | benchmark/evaluators/masterplan_metrics.py:383-388 | On every permutation of ranks the coefficient is their correlation: the centred products over those of equal orders |
| RankCorrelation.ClampCanFire | benchmark/evaluators/masterplan_metrics.py:388 | A candidate with extra items drives the raw coefficient below minus one |
| RankCorrelation.ClampIsIdleIffNoExtras | benchmark/evaluators/masterplan_metrics.py:383-388 | For every reference and every candidate length: all duplicate-free candidates that hold the reference keep the raw coefficient in [-1,1] if and only if the length is at most the reference's |
| RankCorrelation.KendallMeaning | benchmark/evaluators/masterplan_metrics.py:373-382 | Tau is in [-1,1], one only for increasing ranks and minus one only for decreasing ones |
| RankCorrelation.InversionBounds | benchmark/evaluators/masterplan_metrics.py:373-382 | Inversions range from none, exactly in order, to all pairs, exactly in reverse |
| RankCorrelation.ReadingOrderPairAccuracy | benchmark/evaluators/metrics.py:123-134 | The loop computes the share of reference pairs kept in order |
| RankCorrelation.AccuracyMeaning | benchmark/evaluators/metrics.py:123-134 | The accuracy is the share of all pairs of the reference that the candidate holds in the same order |
| RankCorrelation.TauFromAccuracy | benchmark/evaluators/metrics.py:123-134 | The two reading-order metrics agree: tau is twice the pair accuracy minus one |
| RankCorrelation.SwapChangesByOne | benchmark/evaluators/masterplan_metrics.py:373-382 | Swapping two neighbours changes the inversion count by exactly one |
| RankCorrelation.InversionsAreLeastSwaps | benchmark/evaluators/masterplan_metrics.py:373-382 | The inversion count is the least number of neighbour swaps that sorts the order |
| OperationalRetries.Composite.ApplyFailure | benchmark/runpod_eval/apply_operational_retries.py:129-204 | Aborts exactly when a binding of this failure is broken; otherwise the composite takes the one step and says whether the case was recovered |
| OperationalRetries.Composite.RunPlan | benchmark/runpod_eval/apply_operational_retries.py:129-229 | Returns exactly when every step can be taken; accepted plus unresolved is the plan's size, and the outcomes follow the plan |
| OperationalRetries.Composite.ApplyOperationalRetries | benchmark/runpod_eval/apply_operational_retries.py:70-232 | The whole stage, with its input checks and the refusal to overwrite a composite |
| RunSummaries.SourceMapHoldsLast | benchmark/runpod_eval/apply_operational_retries.py:77-78 | A worker's result root is that of its last source |
| OperationalRetries.RunIsExplained | benchmark/runpod_eval/apply_operational_retries.py:129-204 | Over a whole run, a case record differs only if a completed retry on a different worker explains it; all other records are untouched |
| OperationalRetries.PlannedCase | benchmark/runpod_eval/apply_operational_retries.py:129-204 | A planned case was failed at the start and its retry ran on another worker |
| OperationalRetries.PlannedCaseOutcome | benchmark/runpod_eval/apply_operational_retries.py:129-204 | For a duplicate-free plan each planned case ends exactly as its own retry says |
| OperationalRetries.RecoveredFilesAreBound | benchmark/runpod_eval/apply_operational_retries.py:163-177 | To the end of the run a recovered case stands beside the Markdown its record names and the model payload its own retry worker holds for it |
| OperationalRetries.RecoveredRecord | benchmark/runpod_eval/apply_operational_retries.py:178-184 | A recovered record is the failed one with status completed and the retry's Markdown hash and length |
| OperationalRetries.TouchedCountersAreRight | benchmark/runpod_eval/apply_operational_retries.py:195-200 | In the end the counters of every summary a planned failure touches are the numbers of its completed and failed cases |
| OperationalRetries.StepAcceptsIff | benchmark/runpod_eval/apply_operational_retries.py:138-192 | With a result and a target at hand, a step is taken exactly for a failed target retried elsewhere, failed again or completed with both files in place |
| OperationalRetries.AcceptedAreGained | benchmark/runpod_eval/apply_operational_retries.py:205-229 | Completed cases over all summaries grow by exactly the accepted count |
| OperationalRetries.RunKeepsFiles | benchmark/runpod_eval/apply_operational_retries.py:163-177 | No Markdown or model file changes except those of a planned case whose retry completed |
| OperationalRetries.RunKeepsFrame | benchmark/runpod_eval/apply_operational_retries.py:129-204 | Workers, suites, case lists and identities never change |
| FailureRoutes.CollectRoutes | benchmark/runpod_eval/build_operational_failure_routes.py:47-84 | The loop succeeds exactly when every failure names its own routable case, and lists those still failed |
| FailureRoutes.BuildRoutes | benchmark/runpod_eval/build_operational_failure_routes.py:24-99 | Returns exactly on valid inputs, with the sorted routes of the cases still failed; unresolved plus recovered is the plan's size |
| FailureRoutes.RoutesListUnresolved | benchmark/runpod_eval/build_operational_failure_routes.py:47-95 | The routes are one for each case still failed and no others, with the models its suite allows, by suite and then case |
| FailureRoutes.RoutesAreUnresolvedRetries | benchmark/runpod_eval/build_operational_failure_routes.py:47-91 | After any retry run on a plan that names no case twice, every planned case can be routed, those still failed are the unresolved retries, as many as the receipt counts, and the summaries are single repeats exactly when the primaries' were |
| FailureRoutes.BuilderAcceptsIff | benchmark/runpod_eval/build_operational_failure_routes.py:24-91 | For every input the retry stage accepts: the builder accepts the composite exactly when the plan has the known schema and names no case twice and all twelve primary summaries are a single repeat 1; it then routes exactly the unresolved cases |
| FailureRoutes.RetriedPlanIsRefused | benchmark/runpod_eval/build_operational_failure_routes.py:30-44 | A plan and primaries of any schema and any repeat that the retry stage carries out, and the builder accepts only for the known schema and repeat 1 |
| FailureRoutes.StatusAfterRetries | benchmark/runpod_eval/build_operational_failure_routes.py:59-66 | What the builder reads of a planned case is what its retry left |
| FailureRoutes.CoverageIffNamedOnce | benchmark/runpod_eval/evaluate_operational_detection.py:221-246 | A receipt of the retry stage passes the coverage checks if and only if the plan names no case twice |
| FailureRoutes.CoverageMeaning | benchmark/runpod_eval/evaluate_operational_detection.py:221-246 | The coverage checks pass exactly when plan and outcomes list the same cases, neither any case twice, and the receipt counts the outcomes by answer and is bound to the plan |
| FailureRoutes.RepeatedCaseBreaksCoverage | benchmark/runpod_eval/apply_operational_retries.py:133-204 | A plan that names one case twice passes the input checks and the whole retry stage, and its receipt fails the coverage checks |
| FailureRoutes.LoadCases | benchmark/runpod_eval/evaluate_operational_detection.py:122-152 | One case list is accepted exactly when its entries keep all identities distinct and statuses known, and adds exactly its cases to both sets |
| FailureRoutes.LoadBaseline | benchmark/runpod_eval/evaluate_operational_detection.py:101-152 | Over all workers and suites, the two sets are exactly the listed and the failed cases of a corpus of the fixed size |
| FailureRoutes.EntriesAreListed | benchmark/runpod_eval/evaluate_operational_detection.py:101-152 | A case is among the entries with a status exactly when some summary lists it so |
| FailureRoutes.CountsPartition | benchmark/runpod_eval/evaluate_operational_detection.py:153-156 | The four confusion counts partition failed, routed and all cases |
| FailureRoutes.CarriedOutPlanIsPrecise | benchmark/runpod_eval/evaluate_operational_detection.py:153-156 | A plan the retry stage could carry out has no false positive |
| AlternateCandidates.DecideCompleted | benchmark/runpod_eval/apply_alternate_candidates.py:268-361 | A completed result is applied only with the Markdown its record names; Paddle needs its bound response without an error, operational mode always a model payload and for the layout suite a bound fallback, and otherwise the composite's own layout stays |
| AlternateCandidates.DecideEmpty | benchmark/runpod_eval/apply_alternate_candidates.py:362-437 | An empty result is resolved only through a bound fallback, with exactly its readable text and a model payload; an empty page is declared exactly when there is no such text |
| AlternateCandidates.DecisionByResult | benchmark/runpod_eval/apply_alternate_candidates.py:253-437 | Which results are judged by their bindings, which by the fallback, and which count as failed inference |
| AlternateCandidates.Candidate.ApplyRoute | benchmark/runpod_eval/apply_alternate_candidates.py:228-477 | One iteration takes the decided step on the composite, or aborts where the decision does |
| AlternateCandidates.Candidate.RunRoutes | benchmark/runpod_eval/apply_alternate_candidates.py:224-490 | Ends exactly when no route breaks a binding, with the counters and composite of the run; attempted is applied plus failed, resolved-empty at most applied |
| AlternateCandidates.Candidate.ApplyAlternateCandidates | benchmark/runpod_eval/apply_alternate_candidates.py:134-506 | The whole stage with its input checks and the refusal to overwrite; unrouted records and files are untouched |
| AlternateCandidates.RunIsOverlay | benchmark/runpod_eval/apply_alternate_candidates.py:224-490 | Every completed run: counters add up, completed cases grow by applied in operational mode and not at all otherwise, every unrouted record is the baseline's, and so is every file without a routed usable result |
| AlternateCandidates.AppliedStands | benchmark/runpod_eval/apply_alternate_candidates.py:268-477 | To the end of every run, an applied route whose case no later one names leaves the verdict's record, Markdown and model |
| AlternateCandidates.OperationalNeedsModel | benchmark/runpod_eval/apply_alternate_candidates.py:268-437 | In operational mode nothing is applied without a model payload, and an empty result is resolved only through a bound fallback |
| AlternateCandidates.EmptyPageHasNoText | benchmark/runpod_eval/apply_alternate_candidates.py:362-437 | A page is declared empty only when the fallback found no text, or for the layout suite none outside the margins |
| AlternateCandidates.NoTextBlocks | benchmark/runpod_eval/apply_alternate_candidates.py:86-112 | The text blocks are empty exactly when every block is malformed or without content |
| AlternateCandidates.TextBlocksAreInOrder | benchmark/runpod_eval/apply_alternate_candidates.py:86-112 | The text blocks are exactly the blocks with content, placed ones by place, then the others from top to bottom and left to right |
| AlternateCandidates.TotalStep | benchmark/runpod_eval/apply_alternate_candidates.py:438-477 | One step adds one completed case exactly when it applies in operational mode |
| AlternateCandidates.AnySlotKept | benchmark/runpod_eval/apply_alternate_candidates.py:438-477 | Each step keeps, for every summary, that only routed cases have changed |
| AlternateCandidates.StepKeeps | benchmark/runpod_eval/apply_alternate_candidates.py:268-437 | Each step keeps, for every worker and case, that only files of routed cases with a usable result have changed, and no model file where layouts are retained |
| QualitySelection.CompareFailureRecords | benchmark/runpod_eval/compare_official_failure_records.py:61-153 | Returns exactly when no output is there and both sides route each case once, with the selection over the sorted routes |
| QualitySelection.AcceptedIffValid | benchmark/runpod_eval/compare_official_failure_records.py:39-58 | A decision is marked as strictly improved exactly when it passes both validations |
| QualitySelection.ChosenMeaning | benchmark/runpod_eval/compare_official_failure_records.py:77-125 | The chosen cases are exactly the routed ones whose records strictly improve |
| SelectionLists.AcceptedIff | benchmark/runpod_eval/compare_official_failure_records.py:39-106 | A case is accepted exactly when some recoverable route of it has fewer records, no failure code of its own and no escalation |
| SelectionLists.RegressionIff | benchmark/runpod_eval/compare_official_failure_records.py:77-125 | A case is a regression exactly when some recoverable route of it has more records, a new failure code or an escalation |
| SelectionLists.PersistentIff | benchmark/runpod_eval/compare_official_failure_records.py:107-125 | What persists is the baseline's route where nothing improved, and otherwise the candidate's own if it still fails |
| QualitySelection.ChosenSize | benchmark/runpod_eval/compare_official_failure_records.py:77-125 | No chosen case is counted twice |
| QualitySelection.SelectedNeverWorse | benchmark/runpod_eval/compare_official_failure_records.py:77-125 | No case has more failures after selection, and a chosen one has fewer |
| QualitySelection.SelectedTotalDrops | benchmark/runpod_eval/compare_official_failure_records.py:77-125 | The selected total drops by at least the number accepted |
| QualitySelection.PersistentAreStillFailing | benchmark/runpod_eval/compare_official_failure_records.py:107-125 | The persistent routes are exactly the recoverable cases that still fail if and only if every recoverable route has records and every candidate with fewer but some records has a route |
| QualitySelection.PersistsWithoutFailing | benchmark/runpod_eval/compare_official_failure_records.py:107-125 | A recoverable route without a failure record is persistent and not failing |
| QualitySelection.FailingWithoutPersisting | benchmark/runpod_eval/compare_official_failure_records.py:107-125 | An accepted candidate that still fails and has no route of its own is not persistent |
| AcceptedSelection.SelectedOutput.ApplyDecision | benchmark/runpod_eval/apply_accepted_quality_candidates.py:78-140 | Exchanges one case and its files, or refuses exactly when a binding is broken |
| AcceptedSelection.SelectedOutput.RunDecisions | benchmark/runpod_eval/apply_accepted_quality_candidates.py:78-153 | Ends exactly when every decision can be applied, with the composite of the run |
| AcceptedSelection.SelectedOutput.ApplyAccepted | benchmark/runpod_eval/apply_accepted_alternate_candidates.py:25-183 | The stage for both kinds of candidate, with the checks on sources, plan, comparison and output: exactly the accepted cases carry the candidate's record and files, all others the baseline's |
| AcceptedSelection.RunIsSelected | benchmark/runpod_eval/apply_accepted_quality_candidates.py:78-153 | Every completed run exchanged the records and files of the accepted cases, and every other record, Markdown and model of every worker is the baseline's |
| AcceptedSelection.StepSelected | benchmark/runpod_eval/apply_accepted_quality_candidates.py:78-140 | One more decision keeps that property for every summary and file |
| AcceptedSelection.PrimariesHoldLast | benchmark/runpod_eval/apply_accepted_quality_candidates.py:57-60 | A case's route is the last one of the plan that names it |
| SelectionStages.SelectedArtifact | benchmark/runpod_eval/apply_accepted_quality_candidates.py:78-153 | After the stage the official export reads the candidate's artifact for an accepted case and the baseline's for every other |
| SelectionStages.StageYieldsSelectedCounts | benchmark/runpod_eval/apply_accepted_quality_candidates.py:78-153 | The failures of the composite the stage wrote are, case by case, the counts the comparison selected |
| SelectionStages.StageImproves | benchmark/runpod_eval/apply_accepted_quality_candidates.py:78-153 | One stage makes no case worse and lowers the total by at least its accepted cases |
| SelectionStages.StagesOnlyImprove | benchmark/runpod_eval/apply_accepted_quality_candidates.py:78-153 | Over any number of stages, each compared on its actual composite, no case gets worse and the total drops by at least all acceptances |
| BlindDetection.RepetitionRatio | benchmark/runpod_eval/evaluate_blind_quality_detection.py:84-93 | The counting table gives the share of windows that repeat an earlier one |
| BlindDetection.RepetitionRate | benchmark/evaluators/metrics.py:569-578 | The evaluator's rate is the same share, from one full window on |
| BlindDetection.RepeatShareMeaning | benchmark/runpod_eval/evaluate_blind_quality_detection.py:84-93 | A share below one, zero exactly when there are too few words or no window occurs twice |
| BlindDetection.LoopIsDetected | benchmark/runpod_eval/evaluate_blind_quality_detection.py:38-41 | Words that repeat with period p score at least 1 - p / windows |
| BlindDetection.ScoreMeaning | benchmark/runpod_eval/evaluate_blind_quality_detection.py:65-81 | The final clamp never fires, and the score is zero exactly without any signal |
| BlindDetection.SignalsAddUp | benchmark/runpod_eval/evaluate_blind_quality_detection.py:65-81 | Empty output alone is fully suspicious; otherwise every signal adds its own share up to its cap |
| BlindDetection.ScoreIsMonotone | benchmark/runpod_eval/evaluate_blind_quality_detection.py:65-81 | A prediction at least as suspicious on every signal scores at least as high |
| BlindDetection.DescendingPrefixIsHeaviest | benchmark/runpod_eval/evaluate_blind_quality_detection.py:265-268 | By a threshold argument, no arrangement has a heavier prefix than a descending one |
| BlindDetection.OracleIsCeiling | benchmark/runpod_eval/evaluate_blind_quality_detection.py:286-295 | At every budget the oracle order reaches at least the failure mass of any order of the same documents |
| BlindDetection.OracleBeatsRandom | benchmark/runpod_eval/evaluate_blind_quality_detection.py:286-296 | With budget k of n documents the oracle reaches at least k/n of the failures |
| BlindDetection.RankingsPermute | benchmark/runpod_eval/evaluate_blind_quality_detection.py:279-320 | Blind, length-only and oracle rankings list the same documents |
| BlindDetection.BlindRankingOrder | benchmark/runpod_eval/evaluate_blind_quality_detection.py:279-285 | The blind ranking lists higher scores first, and equal scores by suite and case |
| BlindDetection.LengthRankingOrder | benchmark/runpod_eval/evaluate_blind_quality_detection.py:314-320 | The length ranking lists longer predictions first, and equal ones by suite and case |
| Sorting.SortIsStable | benchmark/runpod_eval/evaluate_blind_quality_detection.py:281-285 | Values that no key tells apart stay in the order they were given in |
| Sorting.FirstDifferenceDecides | benchmark/runpod_eval/evaluate_blind_quality_detection.py:281-285 | Of two names the one with the smaller character at the first difference comes first, and a prefix before what it begins |
| BlindDetection.OracleRankingOrder | benchmark/runpod_eval/evaluate_blind_quality_detection.py:286-288 | The oracle lists more failures first, and equal counts by suite and case |
| BlindDetection.RowSelectsMostSuspicious | benchmark/runpod_eval/evaluate_blind_quality_detection.py:279-295 | In every row the blind mass is that of the selected documents, none of which scores below one left out |
| BlindDetection.Evaluate | benchmark/runpod_eval/evaluate_blind_quality_detection.py:271-328 | One row per budget with the masses, the expectation, the fractions, the efficiencies and the overlap of that budget, the length-only columns filled in by a second pass |
| BlindDetection.RowMeaning | benchmark/runpod_eval/evaluate_blind_quality_detection.py:291-328 | Every row: both rankings stay below the oracle, fractions and efficiencies in [0,1], the oracle covers at least the budget's share of the failures, equality at full budget, overlap at least 2k - n |
| BlindDetection.JudgeRows | benchmark/runpod_eval/evaluate_blind_quality_detection.py:419-431 | Supported exactly when some budget beats length and some budget beats random selection |
| CursorDiff.ClassifyAgainst | scripts/record_showcase.py:132-158 | The two loops over sorted paths give exactly the changed, added, removed and renamed paths, a rename joining the first removed and the first added path of a content |
| CursorDiff.CursorHoldsLast | scripts/record_showcase.py:136 | The cursor holds for every path the hash of the last document there |
| CursorDiff.Match | scripts/record_showcase.py:147-151 | Popping contents while going through the added paths pairs each waiting content with its first added path |
| CursorDiff.ReplayGivesCurrent | scripts/record_showcase.py:132-158 | Removing, moving and writing what the classification names turns the previous cursor into the current one exactly |
| CursorDiff.ClassesPartition | scripts/record_showcase.py:152-158 | Every path is in exactly one class or unchanged |
| CursorDiff.RenamesKeepContent | scripts/record_showcase.py:147-151 | A rename joins a path only the old cursor has with one only the new cursor has, of the same content |
| CursorDiff.RenamesAreInjective | scripts/record_showcase.py:147-151 | No old path is renamed twice |
| CursorDiff.OneRenamePerSharedContent | scripts/record_showcase.py:144-151 | Every content shared by a removed and an added path is the content of exactly one rename |
| TypeReader.PrintedTypeReadsBack | scripts/generate_contract_types.py:73-143 | For every schema, reading the printed tokens with & binding tighter than the bar consumes them all and gives the type the schema stands for |
| TypeMeaning.AnyOfReads | scripts/generate_contract_types.py:93-107 | Where anyOf applies, the alternatives read from the print are exactly those read from its variants without `if` |
| TypeMeaning.OneOfReads | scripts/generate_contract_types.py:93-107 | The same for oneOf, where anyOf has no such variant |
| TypeMeaning.AllOfReads | scripts/generate_contract_types.py:93-107 | Where allOf applies, beside neither type nor properties, the parts read are exactly those of its members without `if` |
| TypeMeaning.TypeListReads | scripts/generate_contract_types.py:109-111 | A list of type names reads as the union over the schema under each of them |
| TypeMeaning.TypeNameReads | scripts/generate_contract_types.py:112-119 | Null, boolean, number and string read as themselves, an integer as a number |
| TypeMeaning.ArrayReads | scripts/generate_contract_types.py:120-124 | An array reads as its items, a tuple element by element, and without either as an array of anything |
| TypeMeaning.ObjectReads | scripts/generate_contract_types.py:126-142 | An object reads member by member in order, optional exactly where not required, with the record of its additional properties |
| TypeMeaning.EnumerationReads | scripts/generate_contract_types.py:90-92 | An enumeration reads as the union of its literals |
| TypeMeaning.NamesRead | scripts/generate_contract_types.py:83-89 | References and constants read as their names, and no mapping as any value |
| TypeMeaning.AnythingReads | scripts/generate_contract_types.py:111-143 | A mapping without a known type, properties or additional properties reads as any value |
| TypeReader.RenderPrints | scripts/generate_contract_types.py:82-143 | What is printed reads as the intended union in any context, and as an intersection member wherever it shows no bar |
| TypeReader.GuardedUnionPrints | scripts/generate_contract_types.py:73-79 | A deduplicated union with its parentheses around & reads as the union of its members |
| TypeReader.AllOfPrints | scripts/generate_contract_types.py:103-107 | An intersection with its parentheses around unions reads as the intersection of its members |
| TypeReader.EqualPrintsMeanEqualTypes | scripts/generate_contract_types.py:82-143 | Schemas printed alike stand for the same type |
| MergeGate.RecordsByCase | benchmark/evaluators/merge_gate.py:80-91 | Succeeds exactly when every record names a case of its own, and maps each case to its record |
| MergeGate.EvaluateMergeGate | benchmark/evaluators/merge_gate.py:120-230 | Refuses exactly malformed input; otherwise each kind of reason is given exactly when due, the regressions carry their size, and passing means no reason |
| MergeGateValues.PassesIff | benchmark/evaluators/merge_gate.py:140-218 | A candidate passes exactly when it has the baseline's cases, no known average, case value or cost is worse than allowed, every case is valid, and few enough failed |
| MergeGateValues.ValuesAre | benchmark/evaluators/merge_gate.py:94-106 | The values averaged are those of the records that have the metric, one each and in order |
| MergeGateValues.MeanOfEqualValues | benchmark/evaluators/merge_gate.py:94-106 | Equal values have that mean, and nothing has none |
| MergeGateValues.MeanAfterUpdate | benchmark/evaluators/merge_gate.py:94-106 | Each value moves the mean by its share |
| MergeGateValues.FailureRateMeaning | benchmark/evaluators/merge_gate.py:109-118 | The failure rate is the share of records that crashed or ran out of memory or time, and one without records |
| MergeGateValues.InfraFailures | benchmark/evaluators/merge_gate.py:109-118 | A record failed on infrastructure exactly when it crashed, ran out of memory or time, on its own or at the provider |
| MergeGate.PassingGate | benchmark/evaluators/merge_gate.py:140-218 | A passed gate fixes the case set and bounds every average, case value, validity, failure rate and cost |
| MergeGate.ChainKeepsCases | benchmark/evaluators/merge_gate.py:148-153 | The case set never changes along a chain |
| MergeGate.ChainBoundsLoss | benchmark/evaluators/merge_gate.py:158-175 | An average known in every release is at most k tolerances worse after k gates |
| MergeGate.ChainKeepsCase | benchmark/evaluators/merge_gate.py:177-200 | Numeric exactness of a case never falls and its unsupported rate never rises where known throughout; the last release is valid |
| MergeGate.ChainBoundsCost | benchmark/evaluators/merge_gate.py:206-218 | Without approvals the cost grows by at most ten percent a gate |
| MergeGateGaps.KeptIffNeverMissing | benchmark/evaluators/merge_gate.py:177-200 | For every pattern of releases that know the value, at both ends at least: all passing chains keep a case's exactness, or its unsupported rate, if and only if no release leaves it out |
| MergeGateGaps.GapLosesValue | benchmark/evaluators/merge_gate.py:177-200 | For every pattern with a gap there is a passing chain over which the value gets worse |
| MergeGateGaps.MissingMetricHidesFall | benchmark/evaluators/merge_gate.py:184-191 | Two passed gates over which exactness falls from one to zero, the middle release lacking the metric |
| MergeGateGaps.BoundedIffNeverMissing | benchmark/evaluators/merge_gate.py:158-175 | For every metric with a direction and every pattern of releases that know its average: all passing chains lose at most one tolerance a gate if and only if no release lacks the average |
| MergeGateGaps.CostBoundedIffNeverMissing | benchmark/evaluators/merge_gate.py:206-218 | The same for costs without approvals: at most ten percent a gate if and only if no release lacks the cost |
| CompletionLedger.LoadRoster | benchmark/runpod_eval/build_completion_ledger.py:33-56 | Succeeds exactly for plans without repeated cases whose declared count agrees, with every planned case and its assignment |
| CompletionLedger.EntriesArePlanned | benchmark/runpod_eval/build_completion_ledger.py:33-56 | The entries are the inputs of all shards of all suites, each with its suite and its shard's worker |
| CompletionLedger.LoadDelivered | benchmark/runpod_eval/build_completion_ledger.py:66-82 | Every case some tree has is credited to the earliest such tree; refused exactly for an unattributable prediction |
| CompletionLedger.BenchmarkIsPrefix | benchmark/runpod_eval/build_completion_ledger.py:59-63 | A prediction belongs to the one benchmark whose name its own begins with |
| CompletionLedger.LoadRetryRounds | benchmark/runpod_eval/build_completion_ledger.py:85-106 | Each round's set of different cases, refused exactly when a declared count differs |
| CompletionLedger.SummariseRecovery | benchmark/runpod_eval/build_completion_ledger.py:109-174 | Refused exactly when a round attempts an unplanned case; otherwise the counts of attempted, recovered, missing and never-attempted cases |
| CompletionLedger.BuildLedger | benchmark/runpod_eval/build_completion_ledger.py:177-229 | Refused exactly for unplanned deliveries or attempts; otherwise the counts by outcome, suite and tree |
| CompletionLedger.LedgerBalances | benchmark/runpod_eval/build_completion_ledger.py:184-229 | Planned is resolved plus unresolved overall, in every suite and summed over suites; resolved is baseline plus recovered |
| CompletionLedger.RecoveryBalances | benchmark/runpod_eval/build_completion_ledger.py:123-174 | Unresolved cases are the disjoint union of attempted-in-vain and never-attempted ones, and every round adds up |
| CompletionLedger.LedgerShares | benchmark/runpod_eval/build_completion_ledger.py:123-207 | Every share of a ledger amounts to the number it is the share of |
| CompletionLedger.SeveralRoundsIff | benchmark/runpod_eval/build_completion_ledger.py:149-155 | The count of cases that required more than one round never exceeds those several rounds attempted, and equals them if and only if each was among the first round's |
| CompletionLedger.LaterRoundsAreMissed | benchmark/runpod_eval/build_completion_ledger.py:149-155 | A case attempted in the second and third round alone is not counted |
| CompletionLedger.BaselineCreditIsOwn | benchmark/runpod_eval/build_completion_ledger.py:66-82 | The baseline's credit is exactly its own cases if and only if no case it lacks is first found in a later tree of its name |
| CompletionLedger.NamesDecideCredit | benchmark/runpod_eval/build_completion_ledger.py:66-82 | For every roster and list of tree names: all trees of those names credit the baseline with exactly its own cases if and only if no later name repeats the first or no planned case can be delivered at all |
| CompletionLedger.LateTreeTakesCredit | benchmark/runpod_eval/build_completion_ledger.py:66-82 | Wherever a later name repeats the first, a tree there gets the baseline credited with a case it lacks |
| CompletionLedger.SameNameTakesCredit | benchmark/runpod_eval/build_completion_ledger.py:66-82 | The smallest such input, with two trees of one name |
| CompletionLedger.BaselineCreditIsFixed | benchmark/runpod_eval/build_completion_ledger.py:66-82 | With distinct names the credit does not depend on the recovery trees |
| CompletionLedger.MoreTreesDeliverMore | benchmark/runpod_eval/build_completion_ledger.py:66-82 | Adding or reordering trees loses no delivered case |
| CompletionLedger.AddingTreesOnlyAdds | benchmark/runpod_eval/build_completion_ledger.py:184-207 | Between two ledgers with the same baseline and more recovery trees, resolved never falls, the baseline's credit stays, and the gain is all recovery's |

## Left out

- The order of report lines, the wording of messages and the location strings of the OpenAPI gate; reports are compared as sets of findings at steps from a root.
- Identities of fresh empty mappings in the OpenAPI walk, which the source takes from object addresses that may be reused; every mapping of a document has its own identity here.
- `additionalProperties` and the bodies of anyOf and oneOf beyond their type sets: the gate does not inspect them; validity here ignores them, and the fragment theorems exclude alternatives.
- Exclusive bounds, `multipleOf`, `const` and `allOf`: neither the gate nor validity here inspects them.
- Unicode normalisation and regular-expression tokenisation: sequences of tokens are given, and heading and cell text go through a normaliser parameter.
- Rounding of floating-point values: reals throughout.
- Reading and writing JSON, file copying, hashing, timestamps and argument parsing; the disk is a map of hashes, and `replace_bound` is the comparison of two hashes.
- OperationalRetries.Composite.ApplyOperationalRetries: says nothing of the composite after an abort, which the source leaves half written.
- AlternateCandidates.Candidate.ApplyAlternateCandidates: likewise silent about the composite after an abort; the conversions of model output are parameters, and the overlay records inside summaries are not kept.
- FailureRoutes.LoadBaseline: the corpus size is the constant of the source; per-suite buckets and worker health counts are not modelled.
- MergeGate.RecordsByCase: which of two errors is raised first is not stated; values that are not finite numbers read as absent.
- CursorDiff.ClassifyAgainst: documents are pairs of path and hash; recording and emitting events is not modelled.
- TypeReader.PrintedTypeReadsBack: up to the order of variants as well; literals, names and the record and array wrappers are single tokens.
- CompletionLedger.BuildLedger: details of cases are sets, not sorted lists; counterfactual texts are not modelled.
- BlindDetection.Evaluate: per-signal discrimination, density and operating-point entries are left out, as is the rounding of the random expectation to one digit; the table-shape signals are inputs.
- BoxMatching.LayoutMetrics: the header and footer, caption, type F1 and reading-order values of the cited function are not part of this member; they are ratios over smaller lists, or stated in RankCorrelation.
- SelectionStages.StagesOnlyImprove: official failure counts are a given function of the artifact the export reads, since the official evaluators are not part of this model.
- The remaining metrics (macro F1, formula, knowledge, retrieval and router scores, cell exactness, text metrics): ratios over counts that are easy beside the ones proved.
- Runners, model adapters, dataset downloads and report builders.
