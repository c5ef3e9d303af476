# Verified model of Knowledge Nexus Local

This project models four parts of the system and proves what they promise.

* **Columnar kernels** (the vendored arrow-arith crate). Aggregations spread a sum, minimum or maximum
  over independent lanes, read validity 64 bits at a time and fold the lanes with an in-place tree
  reduction; all of it equals the plain fold over the valid values. Decimal products round a 256-bit
  quotient to the nearest integer. The fallible, infallible and in-place element-wise kernels agree.
* **Task queue and rate limiter**. The queue is a protocol of submitters, workers behind a semaphore,
  progress forwarders and cancellers, interleaved one atomic action at a time; `TaskProtocol` proves
  what holds in every reachable state, `TaskProgress` that it never locks up and that submitted work
  runs out, and `TaskQueue` that each locked section of the code is one of its actions. The limiter's
  pruned lists decide exactly as the full history of acceptances would.
* **Rank fusion**. Weighted Reciprocal Rank Fusion, the merge over stores, the reranker and the
  low-confidence retry, for every order in which a hash map may yield its entries.
* **Articles**. Chunking, normalisation, the chunk index, duplicate detection and the mention graph,
  over every run of create, update and delete.

Where the source changes state in place, the model is a class or an array method proved against a
specification function or relation; the laws are lemmas about the specification. Scores and weights are
real numbers. A float inside minimum and maximum stands for its position in the totalOrder of IEEE
754-2008, section 5.10.

Places where the code does less than its documentation or its neighbours suggest are stated exactly:

* `docs/K2K_PROTOCOL.md:40` lists `cancelled` as an end of the task lifecycle. In the code a worker
  overwrites it (`TaskProtocol.CancelledTaskCompletes`, `TaskProtocol.CancelledLastsUntilWorkerWrites`).
* `divide_and_round` is right for all dividends only with an even divisor, so not for the divisor 1;
  its callers skip it when the scales are equal (`FixedPoint.RoundsToNearestIffEven`).
* The power of ten for the drop in scale wraps at 256 bits, so decimal products are rounded right for
  all factors exactly for a drop of at most 76, in either form (`FixedPoint.RoundsRightIff`).
* The design document calls the stored strength a Jaccard similarity of the two articles' entities. When
  it is written it is one exactly if the extraction lists no entity twice and lists every entity whose
  edge the article already has: edges of an earlier extraction stay, but only the list is counted
  (`EntityRuns.JaccardIffListIsComplete`, `EntityRuns.StaleEdgeRaisesStrength`). Later extractions let
  either article's entities grow without rewriting it; it stays one exactly while the intersection and
  the union gain in proportion (`EntityRuns.StrengthStaysIff`, `EntityRuns.CompleteListsGoStale`).
* The duplicate check and the insertion are two requests without a lock between them. Overlapping
  creations stay free of duplicates exactly when none is overtaken by a duplicate of its own
  (`ArticleRaces.TwinFreeIffNotOvertaken`, `ArticleRaces.OverlappingCreatesBothStore`).
* Clearing, storing and embedding are separate requests too. The lock of the embedding model keeps two
  embeddings apart, so rows never double (`IndexAgreement.RowsOfOneEmbedding`); but the clearing of an update
  or delete takes no lock. The index agrees with the article table exactly if the last embedding is of
  the stored text and nothing of it has been cleared since (`IndexAgreement.ExactIffCurrent`,
  `IndexRaceRuns.DeleteDuringCreate`, `IndexRaceRuns.DeleteDuringEmbedding`,
  `IndexRaceRuns.UpdatesDisagree`).
* Updating an article that is not stored indexes chunks without an article
  (`ArticleRuns.UpdateKeepsIndexIffStored`), and updates are not checked for duplicates
  (`ArticleRuns.UpdateKeepsApartIff`, `ArticleRuns.TwinFreeRunIff`).
* The list of a lone remote node is passed on with any repeats it has (`Router.PassIsAnswer`).
* A document id that is neither hex nor a UUID cannot be deleted, so indexing it again adds to its old
  rows (`VectorIndex.InsertIsExactIff`).

Verify with `dafny verify dfyconfig.toml`.

## Model

| member | source | states |
|---|---|---|
| Bits.MaskTestsBit | patches/arrow-arith-52.2.0/src/aggregate.rs:189-193 | a mask that started at 1 and was shifted left i times tests exactly bit i of the word |
| Bits.ShiftLanesIsShiftRight | patches/arrow-arith-52.2.0/src/aggregate.rs:246-249 | for every lane count below 64 the machine shift by a row of lanes drops exactly that many bits, one at a time |
| Bits.NonzeroHasBit | patches/arrow-arith-52.2.0/src/aggregate.rs:376-395 | a word that is not zero has one of its 64 bits set |
| Bits.UnionIsConjunction | patches/arrow-arith-52.2.0/src/arity.rs:218 | combining two validity masks word by word keeps exactly the positions valid in both |
| LaneAggregate.AccumulateLaws | patches/arrow-arith-52.2.0/src/aggregate.rs:66-151 | wrapping sum, minimum and maximum are commutative monoids on the values of the type, and merging two accumulators is accumulating a value |
| LaneAggregate.FoldLane | patches/arrow-arith-52.2.0/src/aggregate.rs:178-193 | feeding a value to any one lane feeds it to the fold over all lanes |
| LaneAggregate.MergeHalves | patches/arrow-arith-52.2.0/src/aggregate.rs:161-169 | one round of the tree reduction leaves the fold over the lanes unchanged |
| LaneAggregate.ReduceAccumulators | patches/arrow-arith-52.2.0/src/aggregate.rs:153-171 | the in-place tree reduction of 1 to 64 lanes returns the left-to-right fold over the lanes |
| LaneAggregate.AggregateNullableChunk | patches/arrow-arith-52.2.0/src/aggregate.rs:184-194 | one row of lanes takes in exactly the values whose validity bit is set |
| LaneAggregate.AggregateWord | patches/arrow-arith-52.2.0/src/aggregate.rs:246-269 | up to 64 values under one validity word, in rows of lanes and a partial row, add exactly the masked values, for every lane count |
| LaneAggregate.KeptIsMasked | patches/arrow-arith-52.2.0/src/aggregate.rs:238-254 | a word that shows the validity of a block selects exactly the valid values of that block |
| LaneAggregate.WordShowsValidity | patches/arrow-arith-52.2.0/src/aggregate.rs:238-254 | bit i of word c of the mask is the validity of position 64c + i |
| LaneAggregate.AggregateNullableLanes | patches/arrow-arith-52.2.0/src/aggregate.rs:228-273 | for every length, mask and lane count the result is the plain fold over the valid values in index order |
| LaneAggregate.AggregateNonnullChunk | patches/arrow-arith-52.2.0/src/aggregate.rs:174-181 | one row of lanes takes in every value of the row |
| LaneAggregate.AggregateNonnullLanes | patches/arrow-arith-52.2.0/src/aggregate.rs:208-225 | for every length and lane count the result is the plain fold over the values |
| LaneAggregate.AggregateNonnullSimple | patches/arrow-arith-52.2.0/src/aggregate.rs:196-205 | the single-accumulator loop is the plain fold |
| LaneAggregate.Aggregate | patches/arrow-arith-52.2.0/src/aggregate.rs:291-335 | whatever the platform's vector size and the width of the type: nothing when no value is valid, otherwise the plain fold over the valid values, so the lane count never shows |
| LaneAggregate.FoldIsWrappedTotal | patches/arrow-arith-52.2.0/src/aggregate.rs:777-782 | the wrapping sum is the exact sum reduced once to the type |
| LaneAggregate.FoldIsExtreme | patches/arrow-arith-52.2.0/src/aggregate.rs:784-800 | the minimum is one of the values with none below it, and dually for the maximum, in the type's total order |
| CheckedSum.SumChecked | patches/arrow-arith-52.2.0/src/aggregate.rs:729-769 | no value valid gives none; otherwise the exact sum if every running sum over the valid values fits the type, and an error if one does not |
| CheckedSum.CheckedAgreesWithWrapping | patches/arrow-arith-52.2.0/src/aggregate.rs:723-782 | a checked success is the exact sum and the wrapping kernel returns the same number; both return none on the same arrays |
| CheckedSum.RefusesRepresentableSum | patches/arrow-arith-52.2.0/src/aggregate.rs:744-748 | the checked sum can refuse a total that fits, because a running sum does not: 100 + 100 - 100 in 8 bits |
| BitKernels.BitOperation | patches/arrow-arith-52.2.0/src/aggregate.rs:617-682 | for any operator and start value the blocked kernel with the shifting index mask equals the element-wise fold over the valid values |
| BitKernels.AndOfAll | patches/arrow-arith-52.2.0/src/aggregate.rs:684-690 | a bit of the result of bit_and is set exactly when the width has it and it is set in every valid value, for values of any width |
| BitKernels.OrOfAll | patches/arrow-arith-52.2.0/src/aggregate.rs:691-697 | a bit of the result of bit_or is set exactly when it is set in some valid value, for values of any width |
| BitKernels.XorIsParity | patches/arrow-arith-52.2.0/src/aggregate.rs:698-704 | a bit of the result of bit_xor is the parity of the valid values that have it, for values of any width |
| BitKernels.BooleanArray.TrueWordBit | patches/arrow-arith-52.2.0/src/aggregate.rs:385-394 | the word of values and-ed with the word of validity has a bit set exactly for the valid true elements, padding never |
| BitKernels.MaxBoolean | patches/arrow-arith-52.2.0/src/aggregate.rs:369-396 | none when nothing is valid, otherwise whether some valid element is true, though whole padded words are scanned |
| BitKernels.MinBoolean | patches/arrow-arith-52.2.0/src/aggregate.rs:346-358 | none when nothing is valid, otherwise whether no valid element is false |
| BitKernels.BoolOr | patches/arrow-arith-52.2.0/src/aggregate.rs:719-721 | agrees with max_boolean |
| BitKernels.BoolAnd | patches/arrow-arith-52.2.0/src/aggregate.rs:709-714 | counting falses agrees with min_boolean |
| BitKernels.MinMaxDual | patches/arrow-arith-52.2.0/src/aggregate.rs:346-396 | flipping every value turns min_boolean into the negation of max_boolean |
| Arity.Binary | patches/arrow-arith-52.2.0/src/arity.rs:197-228 | an error exactly for different lengths; otherwise the operator at every index and null exactly where an input is null |
| Arity.TryBinary | patches/arrow-arith-52.2.0/src/arity.rs:342-381 | the operator, needed only at doubly valid indices, at every such index, or the error of the first index at which it fails; zero under nulls |
| Arity.TryBinaryNoNulls | patches/arrow-arith-52.2.0/src/arity.rs:440-457 | the loop without nulls keeps the same promise |
| Arity.TryBinaryMut | patches/arrow-arith-52.2.0/src/arity.rs:390-483 | a shared buffer comes back untouched; otherwise the same outcome as try_binary while overwriting in place, with the exact buffer left behind after an error |
| Arity.OutcomeIsUnique | patches/arrow-arith-52.2.0/src/arity.rs:332-392 | the fallible kernels' promise fixes the error, or the nulls and every valid value, so both forms agree |
| Arity.NeverFailingAgrees | patches/arrow-arith-52.2.0/src/arity.rs:165-381 | with an operator that never fails the fallible forms equal the infallible one at every valid index |
| FixedPoint.NoStepWraps | patches/arrow-arith-52.2.0/src/arithmetic.rs:174-191 | no 256-bit step of divide_and_round wraps for a positive divisor and a dividend short of the largest |
| FixedPoint.RoundsToNearestIffEven | patches/arrow-arith-52.2.0/src/arithmetic.rs:174-191 | divide_and_round gives the nearest integer with ties away from zero for every dividend exactly when the divisor is even; the divisor 1 of equal scales fails |
| FixedPoint.NearestIsUnique | patches/arrow-arith-52.2.0/src/arithmetic.rs:173-191 | at most one integer is nearest with ties away from zero |
| FixedPoint.LargestScaleFits | patches/arrow-arith-52.2.0/src/arithmetic.rs:51 | 10^76 fits 256 bits, so the wrapping power does not wrap for any drop in scale up to 76 |
| FixedPoint.ProductIsNearest | patches/arrow-arith-52.2.0/src/arithmetic.rs:118-124 | for a drop of 1 to 76 the rounded 256-bit quotient of two 128-bit factors is the nearest integer to their scaled product, and the product does not wrap |
| FixedPoint.ProductMeaning | patches/arrow-arith-52.2.0/src/arithmetic.rs:113-170 | for a drop of 0 to 76 the checked product is the nearest integer if it fits 128 bits and an error otherwise; the unchecked one is the same integer reduced to 128 bits, that is, the 128-bit integer that differs from it by a multiple of 2^128 |
| FixedPoint.WrappedPowerIsNotZero | patches/arrow-arith-52.2.0/src/arithmetic.rs:51 | the wrapping power of ten is never zero for a drop below 256, so the division is defined |
| FixedPoint.RoundsRightIff | patches/arrow-arith-52.2.0/src/arithmetic.rs:102-171 | the checked form, and likewise the unchecked one, is right for all 128-bit factors iff the scale drops by at most 76; for every larger drop some product whose nearest integer is zero comes out as one |
| FixedPoint.FailsIffOverflows | patches/arrow-arith-52.2.0/src/arithmetic.rs:118-127 | for a drop of at most 76 some product fails exactly when a nearest integer at a doubly valid index overflows |
| FixedPoint.ProductsFitPrecision | patches/arrow-arith-52.2.0/src/arithmetic.rs:41-42 | below 38 the result precision is one more than the digits of the factors together, and every rounded product of factors within their precisions has at least one digit less than it allows, so it fits the result type and none overflows |
| FixedPoint.MultiplyFixedPointChecked | patches/arrow-arith-52.2.0/src/arithmetic.rs:102-129 | errs for a required scale above the product scale, for different lengths, and otherwise exactly when a product at a doubly valid index fails or the array type refuses the precision and scale; else the precision is min(left + right + 1, 38), the scale the required one, and every valid result is the product, which for a drop of at most 76 is the nearest integer |
| FixedPoint.MultiplyFixedPoint | patches/arrow-arith-52.2.0/src/arithmetic.rs:146-171 | same scale, length and type errors and no other, same precision and scale; every result is the unchecked product, which for a drop of at most 76 is the nearest integer reduced to 128 bits |
| RateLimiter.Retain | src/k2k/tasks.rs:38-41 | pruning keeps exactly the entries younger than the window, in order |
| RateLimiter.PrunedAreYoung | src/k2k/tasks.rs:38-41 | the pruned list consists of the entries at just those positions whose age is below the window, in order, and is empty iff there are none |
| RateLimiter.PerClientRateLimiter.constructor | src/k2k/tasks.rs:73-79 | starts with no windows and the window in nanoseconds |
| RateLimiter.PerClientRateLimiter.Check | src/k2k/tasks.rs:47-90 | keeps of the client's list, in order, just the entries younger than the window; accepts iff they are fewer than the budget and then appends the second clock reading, else returns the whole seconds until the oldest expires, plus one, or two if it has expired since; no other list changes |
| RateLimiter.PerClientRateLimiter.Cleanup | src/k2k/tasks.rs:93-100 | keeps a client iff it has an entry younger than the window at its own reading of the clock, and then just those entries in order |
| RateLimiter.PrunedCountsYoung | src/k2k/tasks.rs:38-41 | the pruned list has one entry per acceptance younger than the window |
| RateLimiter.EveryRunKeepsInv | src/k2k/tasks.rs:38-100 | in every run each stored list is the full history of acceptances without a prefix that has expired |
| RateLimiter.DecidesLikeFullHistory | src/k2k/tasks.rs:47-62 | after any interleaving of checks and cleanups a check accepts exactly when the full history has fewer than the budget of entries younger than the window |
| RateLimiter.AcceptancesAreSpaced | src/k2k/tasks.rs:47-62 | the i-th acceptance and the one a budget later are a window apart, and the list never outgrows the budget, so the 32-bit cast loses nothing |
| RateLimiter.WaitIsHonoured | src/k2k/tasks.rs:49-58 | a client that was rejected, waited as told and had nothing accepted since is accepted, whatever else happened |
| RateLimiter.WaitIsTight | src/k2k/tasks.rs:51-58 | while the oldest entry is in the window the wait outlasts its expiry by more than nothing and at most one second |
| TaskProtocol.ActionKeepsPermits | src/k2k/tasks.rs:320-324 | no action changes the sum of free permits and permit holders |
| TaskProtocol.ActionKeepsInv | src/k2k/tasks.rs:217-551 | every action of submitters, workers, forwarders and cancellers keeps the protocol invariant |
| TaskProtocol.EveryStateIsSafe | src/k2k/tasks.rs:199-457 | in every reachable state permits and holders add up to max(1, max_concurrent), no more tasks run than that, and a result is there exactly for completed and an error exactly for failed tasks |
| TaskProtocol.EveryStateTellsTheStory | src/k2k/tasks.rs:298-455 | no worker ever misses its handler, every event carries its task's client, and a task's lifecycle events are queued, running and then one final event that matches the stored status |
| TaskProtocol.OutcomeIsFinal | src/k2k/tasks.rs:397-455 | once completed or failed, a task keeps its status, result and error through any later actions |
| TaskProtocol.CancelledLastsUntilWorkerWrites | src/k2k/tasks.rs:326-332 | a cancelled task stays cancelled through an action exactly when the action is not its own worker writing a status |
| TaskProtocol.CancelledTaskCompletes | src/k2k/tasks.rs:508-530 | a run in which a task cancelled by its client while queued is run and completed, so cancelled is not an end state |
| TaskProtocol.DecimalReadsBack | src/k2k/tasks.rs:439 | the seconds in the timeout message are decimal digits without leading zeros that read back as the number |
| TaskProgress.StepsUseUpWork | src/k2k/tasks.rs:316-457 | every step of a submission or worker uses up some of the work that is left, and only a new submission brings any |
| TaskProgress.NeverStuck | src/k2k/tasks.rs:320-324 | while a submission or worker has work left, some step is enabled: a permit holder can go on, and without holders a waiting worker can have a permit |
| TaskProgress.QuietIffNoStep | src/k2k/tasks.rs:207-457 | a reachable state has no step to take exactly when every submission and worker is through, and then every stored task is completed or failed and every permit is free |
| TaskProgress.WorkRunsOut | src/k2k/tasks.rs:316-457 | however actions interleave, a run without new submissions takes no more steps than the work that was left at its start |
| TaskProgress.EveryStateCanFinish | src/k2k/tasks.rs:298-457 | from every reachable state, whatever each handler returns, steps that drop no submission lead to a state in which every task that was stored or being submitted is completed or failed as its handler returned, unless it had an outcome before, and all permits are free |
| TaskQueue.Queue.constructor | src/k2k/tasks.rs:178-208 | starts empty with max(1, max_concurrent) permits |
| TaskQueue.Queue.Register | src/k2k/tasks.rs:211-214 | adds a handler and nothing else |
| TaskQueue.Queue.CheckHandler | src/k2k/tasks.rs:219-227 | refuses an unknown capability before anything is stored |
| TaskQueue.Queue.InsertTask | src/k2k/tasks.rs:283-296 | stores the task as queued, without result, error or progress |
| TaskQueue.Queue.SendQueued | src/k2k/tasks.rs:299-305 | sends the queued event in the submitting client's name |
| TaskQueue.Queue.SpawnWorker | src/k2k/tasks.rs:308-316 | hands the submission over to a waiting worker |
| TaskQueue.Queue.AcquirePermit | src/k2k/tasks.rs:320-323 | takes one permit |
| TaskQueue.Queue.SetRunning | src/k2k/tasks.rs:326-332 | the stored task becomes Running over whatever status it has, and nothing else changes |
| TaskQueue.Queue.SendRunning | src/k2k/tasks.rs:334-340 | sends the running event in the submitting client's name |
| TaskQueue.Queue.FindHandler | src/k2k/tasks.rs:346-363 | the worker's look-up always finds a handler |
| TaskQueue.Queue.FinishTask | src/k2k/tasks.rs:397-455 | under one lock: a success sets Completed, the result and progress 100 and sends the completed event; an error or timeout sets Failed and its message, the timeout's with the seconds in decimal, and sends the failed event; nothing else changes |
| TaskQueue.Queue.ReleasePermit | src/k2k/tasks.rs:456 | gives the permit back |
| TaskQueue.Queue.StoreProgress | src/k2k/tasks.rs:372-378 | the stored task's progress becomes the percentage; status, result, error and all other tasks stay |
| TaskQueue.Queue.SendProgress | src/k2k/tasks.rs:379-385 | announces the stored percentage |
| TaskQueue.Queue.CancelForClient | src/k2k/tasks.rs:508-530 | another client's task is as good as absent; a queued or running task becomes Cancelled, keeps all else, and one cancelled event goes out in its owner's name; otherwise tasks and events stay |
| TaskQueue.Queue.CancelAny | src/k2k/tasks.rs:533-551 | a queued or running task becomes Cancelled, keeps all else, and one cancelled event goes out in its owner's name; otherwise tasks and events stay |
| TaskQueue.Queue.GetStatusForClient | src/k2k/tasks.rs:469-488 | shows a task to its owner only |
| StableSort.SortDownSorts | src/retrieval/hybrid.rs:46-54 | the sort is descending and keeps the items |
| StableSort.SortDownIsStable | src/retrieval/reranker.rs:68 | items with equal scores keep their order |
| StableSort.SortDownReorders | src/retrieval/reranker.rs:68 | the sorted list is the old one in another order, by positions that are all different and ascend among equal scores |
| RankFusion.UpdateTabulates | src/retrieval/hybrid.rs:34-42 | one step of the loop keeps, for every article, the sum of its shares and its representative |
| RankFusion.Drain | src/retrieval/hybrid.rs:45 | the collected entries are the map's, each once, in whatever order |
| RankFusion.MergeSignals | src/retrieval/hybrid.rs:24-67 | for every map order the result is the best topK of a ranking that lists every mentioned article once with its score and representative |
| FusionLaws.TopIsBest | src/retrieval/hybrid.rs:45-66 | no article twice, at most topK, confidence equal to the fused score and never rising, and every dropped article scores no more than every kept one |
| FusionLaws.RankingsAgree | src/retrieval/hybrid.rs:45-54 | two map orders give the same articles, scores and representatives |
| FusionLaws.ChosenIsEarliestBest | src/retrieval/hybrid.rs:37-41 | the representative is the most confident occurrence, the earliest of them on a tie |
| FusionLaws.ScoreIsSumOverSignals | src/retrieval/hybrid.rs:33-38 | the fused score is the sum of weight / (k + rank + 1) over signals and ranks, with ranks counted from 0 |
| FusionLaws.ScoreIgnoresSignalOrder | src/retrieval/hybrid.rs:31-43 | reordering the signals changes no score |
| FusionLaws.RankingConserves | src/retrieval/hybrid.rs:31-45 | before the cut, the scores of all articles add up to the shares of all list positions |
| FusionLaws.BetterRankedScoresMore | src/retrieval/hybrid.rs:33-38 | an article every signal ranks at or above another scores at least as much, and strictly more once a positive-weight signal has it |
| FusionLaws.FusionMeans | src/retrieval/hybrid.rs:24-67 | what merge_signals returns, in terms of its inputs: at most topK results by sum of weight / (k + rank + 1), each the earliest most confident result of its article with that sum as confidence and provenance score and all else as found, and an article is left out only for topK others that score at least as much |
| StoreMerger.MergeRrf | src/router/merger.rs:17-83 | one store is truncated; otherwise the best topK of a ranking with weight 1, k 60 and rewritten provenance |
| StoreMerger.MergeMeans | src/router/merger.rs:17-83 | in terms of the lists: a lone list is cut to topK; otherwise scores are the sums of 1 / (60 + rank + 1), each result is the earliest most confident of its article, with its own provenance if it is the first and else with its store, store type and rank, and an article is left out only for topK others that score at least as much |
| StoreMerger.RestampingKeepsChoice | src/router/merger.rs:43-63 | rewriting provenance never changes which result represents an article |
| StoreMerger.MergeIsFusion | src/router/merger.rs:31-83 | for any number of stores but one the merge is merge_signals with weight 1 and k 60: same articles, order, scores and representatives, provenance aside |
| Reranker.QueryWords | src/retrieval/reranker.rs:14-19 | the lowercased query's words of more than two bytes |
| Reranker.Boost | src/retrieval/reranker.rs:24-60 | the boost is what phrase, title words and age earn |
| Reranker.BoostIsEarned | src/retrieval/reranker.rs:24-60 | the boost is 0.15 if the content has the query, plus 0.2 if the title has it or else 0.1 times the share of its words of more than two bytes found there, plus 0.05 under 7 days, 0.02 under 30 |
| Reranker.ContainsIff | src/retrieval/reranker.rs:27-32 | a text contains the query iff it is something, the query, and something |
| Reranker.ByteLenCounts | src/retrieval/reranker.rs:17 | the byte length is one for each character and one more from each of the codes 0x80, 0x800 and 0x10000 on |
| Reranker.BoostIsBounded | src/retrieval/reranker.rs:24-60 | a boost lies between 0 and 0.4 |
| Reranker.Rerank | src/retrieval/reranker.rs:13-77 | returns the same results reordered by distinct positions, each as it was but for its confidence, which rises by exactly what phrase, title words and age earn; confidences never rise along the list and ties keep their order |
| Reranker.RerankingKeepsResults | src/retrieval/reranker.rs:67-77 | the same results, each once, in order of new confidence |
| Reranker.OvertakingIsBounded | src/retrieval/reranker.rs:62-68 | no result overtakes one that was more than 0.4 ahead |
| Reranker.RerankingKeepsDistinct | src/retrieval/reranker.rs:67-77 | distinct articles stay distinct |
| Reranker.RerankingIsStable | src/retrieval/reranker.rs:68 | results with the same boosted confidence keep the order they came in |
| Reranker.TitleMatchOutranks | src/retrieval/reranker.rs:27-47 | at equal confidence and age a result whose title has the query comes before one whose title has neither the query nor any long word of it, whatever their contents |
| Router.Execute | src/router/executor.rs:48-171 | one list per store, of all its vector and keyword results and, if its weight is positive, its graph results, by the sum of weight / (k + rank + 1) over the three lists |
| Router.SignalsMean | src/router/executor.rs:150-162 | leaving out an empty list changes nothing: what is fused is all vector, keyword and positively weighted graph results, with the three weights |
| Router.MergeIsAnswer | src/router/merger.rs:17-83 | a merge of several lists has no repeats, at most topK results and never-rising confidence; one list is cut to topK |
| Router.PassIsAnswer | src/router/mod.rs:92-119 | a pass of search, merge and rerank gives at most topK results, best first, for every map order, and lists each article once; only for a lone remote list this is so iff it is so of that list |
| Router.Route | src/router/mod.rs:64-153 | the first pass stands unless all of it is of low confidence and the retry, made without the remote nodes, found something better; either way at most topK results, best first, each article once |
| Router.RetryIsBetter | src/router/mod.rs:122-153 | the answer is the first pass's, or a retry's that is not all of low confidence after a first pass that was; it is a first pass all of low confidence only if there is no variant or its retry is no better |
| Router.LoneStoreAnswers | src/router/mod.rs:92-119 | a pass over one local store, end to end: each result is the earliest most confident one of its article with its fused score plus what the query earns it, and every article found by vector or keyword search or a positively weighted graph is listed or left out for topK that score at least as much |
| Router.StoresAnswer | src/router/mod.rs:92-119 | the same for several lists, local and remote, with the sums of 1 / (60 + rank + 1) as scores |
| Text.WordsOfJoin | src/knowledge/articles.rs:351 | splitting words joined by single spaces gives the words back |
| Text.WordsSplitAtSpace | src/knowledge/articles.rs:341 | the words of a text are those before any of its white space and those after |
| Chunking.ChunkText | src/knowledge/articles.rs:339-362 | returns the text itself, unchanged, up to chunk_size words and otherwise the joined windows, and terminates |
| Chunking.PiecesRebuild | src/knowledge/articles.rs:346-361 | dropping the overlaps rebuilds the word sequence |
| Chunking.PiecesOverlap | src/knowledge/articles.rs:349-358 | neighbouring pieces share exactly the overlap and the later one has more words than that |
| Chunking.PiecesCount | src/knowledge/articles.rs:349-358 | there are ceil((n - overlap) / (chunk_size - overlap)) pieces |
| Chunking.ChunksSplitToPieces | src/knowledge/articles.rs:349-361 | splitting each chunk gives its piece back |
| Chunking.ChunksCoverText | src/knowledge/articles.rs:339-362 | all of this for the chunks of a text: number, overlaps, a new word in each, single spaces between words, and no word lost |
| ContentHash.WriteChar | src/store/hash.rs:21-31 | what each character adds to the output of the loop |
| ContentHash.StripTrailing | src/store/hash.rs:32-34 | removes the one trailing space there can be |
| ContentHash.Normalize | src/store/hash.rs:18-34 | the loops yield the lowercased words joined by single spaces |
| ContentHash.NormalIsIdempotent | src/store/hash.rs:10-17 | a normal form is its own normal form |
| ContentHash.NormalFormsAgree | src/store/hash.rs:10-17 | two texts share a normal form exactly when their lowercased words agree |
| ContentHash.CaseIsIgnored | src/store/hash.rs:10-17 | texts that differ only in case, or in which white space stands where, have the same normal form |
| VectorIndex.VectorDB.DeleteDocument | src/vectordb/mod.rs:540-571 | removes the document's rows from both tables, or refuses an id with a character that is neither a hex digit nor a dash |
| VectorIndex.VectorDB.InsertDocument | src/vectordb/mod.rs:271-295 | deletes first, carries on if that was refused, then adds the document row and every chunk row in order |
| VectorIndex.DeletedRows | src/vectordb/mod.rs:550-561 | a deletion takes exactly the document's own rows |
| VectorIndex.InsertedRows | src/vectordb/mod.rs:276-287 | an insertion leaves the rows of every other document alone |
| VectorIndex.InsertIsExactIff | src/vectordb/mod.rs:271-295 | after an insertion the document has exactly the new rows iff its id can be deleted or it had no rows |
| Articles.ArticleService.constructor | src/knowledge/articles.rs:30-45 | starts with no articles and an empty index |
| Articles.ArticleService.EmbedArticle | src/knowledge/articles.rs:143-210 | after clearing the article's rows appends its document row with the number of chunks, and one numbered row per chunk of 500 words with 50 overlapping, with title, text and embedding |
| Articles.ArticleService.FindByHash | src/store/mod.rs:466-478 | some article of the store with that hash, if there is one |
| Articles.ArticleService.Create | src/knowledge/articles.rs:52-101 | a non-empty hash that an article of the same store has queues the newcomer's store, title, text and hash with that article's id and changes nothing else; a taken id fails and changes nothing; anything else is stored, marked as embedded, and indexed |
| Articles.ArticleService.Merge | src/store/mod.rs:408-430 | changes a stored article but not its store, and ignores an unknown id |
| Articles.ArticleService.Update | src/knowledge/articles.rs:104-124 | a stored article becomes the given one with the hash of the new text, its old store and the embedded mark, whatever hash was passed; an unknown id stores nothing; the indexed rows are replaced |
| Articles.ArticleService.Delete | src/knowledge/articles.rs:127-132 | removes the article and its rows |
| ArticleRuns.OtherRowsStay | src/vectordb/mod.rs:271-295 | no operation touches the rows or the article of another id |
| ArticleRuns.NextKeepsIndexed | src/knowledge/articles.rs:52-132 | every operation keeps the index in step with the stored articles |
| ArticleRuns.EveryRunIsIndexed | src/knowledge/articles.rs:52-132 | over every run each stored article has exactly its document row and chunk rows, and an id that is neither article nor file has none |
| ArticleRuns.RowsAreNumbered | src/knowledge/articles.rs:144-210 | the rows are numbered from 0 with the total in each, as 32-bit numbers, and hold id, title, the chunks of the content and their embeddings; the document row says the total |
| ArticleRuns.UpdateKeepsIndexIffStored | src/knowledge/articles.rs:104-124 | an update keeps the index in step exactly when the id is stored; otherwise it indexes chunks without an article |
| ArticleRuns.CreateAddsNoTwin | src/knowledge/articles.rs:52-101 | a creation is turned down as a duplicate exactly for the texts whose normal form the store has already, also when its id is taken |
| ArticleRuns.EveryRunIsTwinFree | src/knowledge/articles.rs:52-88 | no run of creations, updates and deletions, one after the other, leaves two articles of one store with the same normal form as long as each update was to a text whose normal form no other article of its store had |
| ArticleRuns.UpdateKeepsApartIff | src/knowledge/articles.rs:104-124 | an update keeps the articles apart exactly when its id is not stored or no other article of the store has the new content's normal form |
| ArticleRuns.TwinFreeRunIff | src/knowledge/articles.rs:52-132 | a run stays free of such pairs throughout exactly if every update in it was to a text whose normal form no other article of its store had |
| ArticleRuns.UpdateKeepsHashed | src/knowledge/articles.rs:105-107 | an update stores the hash of the new text's normal form, whatever hash its caller passes, so stored hashes stay those of the stored texts |
| ArticleRuns.EveryRunIsHashed | src/knowledge/articles.rs:52-132 | in every run, updates included, each stored hash is that of the stored text |
| ArticleRaces.EveryStateIsStamped | src/knowledge/articles.rs:54-88 | in every run of overlapping creations a stored twin of an article still to be inserted was inserted after that article's look-up |
| ArticleRaces.TwinWasInsertedBetween | src/knowledge/articles.rs:54-88 | an insertion stores a twin exactly if another creation inserted one between this creation's look-up and its insertion, and it is still there |
| ArticleRaces.TwinFreeIffNotOvertaken | src/knowledge/articles.rs:54-88 | a run of overlapping creations and deletions never has two articles of one store with the same normal form iff no creation is overtaken in this way |
| ArticleRaces.OverlappingCreatesBothStore | src/knowledge/articles.rs:54-88 | a run in which two creations of one text both look before either inserts, and both are stored |
| ArticleRaces.AtOnceIsCreate | src/knowledge/articles.rs:52-101 | a look-up directly followed by its insertion leaves the same articles as the one-step creation of `Articles` |
| IndexRaces.EveryStateKeepsInv | src/knowledge/articles.rs:144-231 | in every interleaving the lock allows at most one call embeds at a time, it finds its work as it left it but for what others cleared, and the rows under an id are those of its last embedding less what has been cleared |
| IndexAgreement.RowsOfOneEmbedding | src/vectordb/mod.rs:271-295 | in every state of every interleaving an id has at most one document row, and its chunk rows are consecutive rows of one embedding, the one the document row describes |
| IndexAgreement.ExactIffCurrent | src/knowledge/articles.rs:52-132 | in every state in which nobody is adding rows for an id, the index holds exactly the rows of its stored article iff the last embedding is of the stored text and nothing of it has been cleared since; without a stored article, iff all of it has |
| IndexCalls.CreateAlone | src/knowledge/articles.rs:86-101 | the requests of a successful create, with nothing in between, are the one-step create |
| IndexCalls.UpdateAlone | src/knowledge/articles.rs:104-124 | the requests of an update, with nothing in between, are the one-step update |
| IndexCalls.DeleteAlone | src/knowledge/articles.rs:127-132 | the requests of a delete, with nothing in between, are the one-step delete |
| IndexRaceRuns.DeleteDuringCreate | src/knowledge/articles.rs:86-132 | a run in which a delete comes between the insertion and the embedding of a create, and rows stay without an article |
| IndexRaceRuns.DeleteDuringEmbedding | src/vectordb/mod.rs:282-287 | a run in which a delete comes between the document row and the chunk rows of a create, and chunk rows stay without document row and article |
| IndexRaceRuns.UpdatesDisagree | src/knowledge/articles.rs:104-124 | a run of two updates that embed in one order and write the article in the other, so that the index shows the text of one and the article table that of the other |
| EntityGraph.GraphStore.CreateMentionsEdge | src/store/mod.rs:993-1016 | replaces the edge of the pair, so edges stay unique and all others stay |
| EntityGraph.GraphStore.CountShared | src/knowledge/articles.rs:294-306 | counts for every other article the listed entities it mentions |
| EntityGraph.GraphStore.ComputeRelated | src/knowledge/articles.rs:289-325 | the relations afterwards are the old ones with exactly those to the other articles that share a listed entity rewritten |
| EntityGraph.GraphStore.StoreExtracted | src/knowledge/articles.rs:248-275 | every listed entity is stored and its mention count raised as often as it is listed; the pairs named have the edge of their last mention, all other edges stay |
| EntityGraph.GraphStore.ProcessExtracted | src/knowledge/articles.rs:235-284 | entities, edges and relations afterwards are those of the specification `Processed`, whose laws follow |
| EntityGraph.ProcessedMentions | src/knowledge/articles.rs:249-273 | the article then mentions what it mentioned before and the list; every other article mentions what it did |
| EntityGraph.ProcessedRelations | src/knowledge/articles.rs:289-325 | exactly the relations of the article to the others that mention a listed entity are written, with the shared count and strength; every other relation stays, and none is new |
| EntityGraph.ProcessedEdges | src/knowledge/articles.rs:264-270 | afterwards an edge is that of an entity's last listing, with its excerpt, empty if there is none, and its confidence, or an old edge of a pair not listed |
| EntityGraph.ProcessedEntities | src/knowledge/articles.rs:248-262 | an entity is stored iff it was or is listed, and its count rises by the number of its listings |
| EntityGraph.WrittenRelations | src/knowledge/articles.rs:294-325 | a relation is written iff the other article mentions a listed entity; it holds the number of listings that hit and that number over listings plus entities of the other article less it; every other relation stays |
| EntityGraph.GraphStore.CoMentions | src/store/mod.rs:1239-1293 | lists every other entity that shares an article, once, with the number of articles that mention both, in descending order |
| EntityGraph.EdgesCountArticles | src/store/mod.rs:1278-1283 | because pairs are unique, counting edges counts articles |
| EntityGraph.CoMentionsAreSymmetric | src/store/mod.rs:1239-1283 | the co-mention count of two entities is the number of articles mentioning both, from either side |
| EntityRuns.StrengthIsJaccard | src/knowledge/articles.rs:312-318 | for a list without repeats the strength is the size of the intersection of the listed set and the other article's set over that of their union, in (0, 1], and 1 exactly if they are equal |
| EntityRuns.ProcessedIsJaccard | src/knowledge/articles.rs:235-284 | a list without repeats that covers what the article mentioned before writes Jaccard similarities of the stored sets, in (0, 1], and 1 exactly for equal sets |
| EntityRuns.JaccardIffListIsComplete | src/knowledge/articles.rs:294-318 | when it is written, the strength is the Jaccard similarity of the stored entity sets, for every other article, iff no entity is listed twice and none was stored before without being listed now; otherwise it is too high for an article that mentions just what is listed |
| EntityRuns.StaleEdgeRaisesStrength | src/knowledge/articles.rs:265-318 | extracting just e1 from an article that mentioned e1 and e2 stores strength 1 for an article that mentions e1, whose similarity is one half |
| EntityRuns.RelationIsLastWritten | src/knowledge/articles.rs:308-325 | in every run of extractions a relation is as its last writer left it |
| EntityRuns.EveryRelationWasWritten | src/knowledge/articles.rs:308-325 | in every run each relation there is was written by some extraction of its first article |
| EntityRuns.StrengthStaysIff | src/knowledge/articles.rs:294-325 | in every state of every run a stored strength s / t is the Jaccard similarity of the two entity sets as they are then iff what their intersection has gained since it was written, times t, equals what their union has gained, times s; for a complete list s and t are the sizes of the two sets at that time |
| EntityRuns.OtherExtractionKeepsIff | src/knowledge/articles.rs:294-325 | a strength that is the similarity stays it through an extraction of the other article iff the new entities it shares, times the size of the union, equal the new ones it does not, times that of the intersection |
| EntityRuns.OwnExtractionKeepsIff | src/knowledge/articles.rs:294-325 | through an extraction of its own article that hits none of the other's entities it stays the similarity iff nothing new is listed or the two articles share nothing |
| EntityRuns.CompleteListsGoStale | src/knowledge/articles.rs:289-325 | a run of three complete lists after which a stored strength is 1 and the similarity one half |

## Left out

- LaneAggregate.Aggregate: the sum of floating-point arrays is excluded, because float addition is not associative and the lane count may show in its rounding. A shift by 64 lanes is modelled as a release build performs it; a build with overflow checks panics there.
- LaneAggregate.AggregateNullableLanes: slices with a bit offset are not modelled; the chunk iterator's realignment is taken as its contract (bit i of word c is element 64c + i, padding bits are zero).
- CheckedSum.SumChecked: the iterator over valid indices is taken as its contract, ascending indices; dictionary arrays are not modelled.
- BitKernels.AndOfAll: in this and the other two operators' laws an integer is its bit pattern in 64-bit words, padded with zeros, and the and-aggregation starts from as many ones as the width has. The kernel itself is proved for values of any type.
- Arity.TryBinaryMut: whether the buffer is shared is an input. `binary_mut`, the unary kernels and the dictionary wrappers are thin variants and are not modelled.
- FixedPoint.MultiplyFixedPoint: in this and its checked form sums and differences of scales do not overflow 8 bits, where a build with overflow checks panics. Which precisions and scales the array type accepts is library code and an input.
- RateLimiter.PerClientRateLimiter.Check: the budget is positive, as `submit` guarantees before it asks the limiter. A client's window object is the table's entry for that client, since the table owns it.
- TaskProtocol.EveryStateIsSafe: semaphore closing, handler panics, subscribers that lag and storage failures are outside the step model; rate-limit and quota refusals are one nondeterministic rejection between the handler check and the insertion, and task ids are fresh.
- TaskProgress.EveryStateCanFinish: a handler that is running ends, if only by its timeout, and a submission that has begun is not abandoned by its caller.
- TaskQueue.Queue.FinishTask: time stamps and the payloads of events other than progress are not kept.
- RankFusion.MergeSignals: NaN scores, float rounding and denominators of zero are not modelled; summary, tags, source type and other metadata ride along unchanged and have no field, and the modification time enters as an age in days.
- Router.Route: what the searches and the remote nodes return, context classification, store planning, query expansion rules and the confidence thresholds are inputs.
- Reranker.Rerank: lowercasing of strings is an input.
- ContentHash.Normalize: lowercasing of characters is an input that yields words and is idempotent on them.
- Articles.ArticleService.Create: the whole call is one step (`ArticleRaces` and `IndexRaces` split it); the digest is an input, injective and never empty where duplicates are at stake; embeddings are whatever the model returns; storage calls succeed; time stamps, tags, line, word and token counts, chunk ids and paths are not kept.
- ArticleRuns.EveryRunIsIndexed: every create, update and delete is one step here, although the code makes several requests without a lock; `ArticleRaces` and `IndexRaces` have the calls that overlap. Entity extraction, which only warns when it fails, is a separate model (`EntityGraph`).
- ArticleRuns.EveryRunIsTwinFree: operations follow each other; `ArticleRaces` has the overlapping ones.
- ArticleRaces.TwinFreeIffNotOvertaken: updates are left out, as is the flag that marks an article as embedded.
- IndexAgreement.ExactIffCurrent: one service with one embedding model, as the server sets up; articles of fewer than 2^32 chunks; the look-up that starts a create is the subject of `ArticleRaces`.
- EntityRuns.StrengthStaysIff: articles are not deleted. Extractions follow each other, as the lock held through an embedding makes them do; the backfill command, which takes no lock, is not modelled.
- EntityGraph.GraphStore.ProcessExtracted: the article is stored, as it is after a create; deleting a record removes its edges, so edges always join stored records and the fetch of the entity records misses none. An entity's name, type, description and store are not kept, and its id, the slug of type and name, is an input.
- Vector search, full-text search, graph search and the quantizers: library calls and I/O.
- HTTP handlers, authentication, discovery, federation, connectors, migration, configuration, tray and user interface: I/O and plumbing, or properties that would only be easy.
