# gmiter flow control: a Dafny model

gmiter guards calls to resources: it counts them in sliding windows and decides from the counts which ones to let
through. The model covers the parts whose decisions have a simple specification, and proves that the code's mutable
structures agree with it.

- **Windows** (`LeapArray`, `EventLog`, `MetricBucket`, `SlidingWindow`, `WindowRefinement`): the circular array of time
  buckets, recycled in place, reports what a plain log of every event would.
- **Circuit breakers** (`CircuitBreaker`, `BreakerRuns`, `BreakerDecisions`, `BreakerInterleaving`, `BreakerReload`,
  `BreakerLoading`): the state machine with atomic calls against a naive breaker, and its decisions by the calls made; its
  compare-and-set steps under any interleaving; reuse when rules reload, and the loading of one resource's rules.
- **Limiters** (`RejectChecker`, `RejectInterleaving`, `Pacing`, `WarmUp`, `Lru`, `Hotspot`, `HotspotThrottling`): the
  optimistic reject check, pacing locally and on the token server, the warm-up bucket, and the limits per argument on
  least-recently-used caches.
- **Metric pipeline** (`MetricItem`, `MetricLog`, `MetricIndex`, `LogRolling`, `Aggregator`, `ExportRuns`, `ExportAll`): the
  line format, the rolling log with its seek index, and the export of finished seconds, of one node and of all.
- **Entries and routing** (`SlotChain`, `EntryRuns`, `EntryRecords`, `WeightRouter`): the life of an entry, requests in
  flight and what they leave in the counts, isolation, and weighted choice of nodes.

Each operation that changes state is a method of a class, proved against a function of the old state; the main results
are lemmas about runs of those functions. `Prelude` and `Arithmetic` hold shared definitions and facts about division.
Clocks and random numbers are arguments, and one call reads the clock once. A predicate handed to the window is
a range of starts, which is what all callers hand over. `float64` is `real`.

## What the model shows about the code

- A view that looks back past time 0 wraps around below zero and reports nothing (`EarlyClockReportsNothing`). The
  window results hold from the first whole window on.
- The token server tells waits in whole milliseconds, so a client can come up to a millisecond before its turn and too
  close to the one before it (`ServerSpacingCanBeShort`); `ServerSpacingIffNotShort` says exactly when.
- A block and its kind are counted by two readings of the clock. A kind that is alone in its second is exported nowhere
  (`KindAloneIsLost`); `CountIsConservedIff` says exactly when a total is conserved.
- The writer indexes a second only when it is later than the latest one, and it starts with the current second as the
  latest. Lines of the start second have no index entry and are not found (`StartSecondIsNotFound`); the same holds for
  the first lines that remain when the file with their entry is removed. `SearchIsExact` says exactly which searches
  are affected. A day roll leaves the entry in the file before, which does no harm.
- Isolation adds in 32 bits: a batch that wraps around with the concurrency gets in, and so does an empty batch at the
  threshold (`RuleKeepsItsBound`, `UnfairBatchBreaksTheBound`).
- Rule equality overlooks the number of probes and small differences of the threshold, so a reload can leave the old
  settings in force (`ChangedProbeNumberIsOverlooked`, `ChangedThresholdIsOverlooked`); `ReloadTakesEffectIff` says when not.
- `onResourceRuleUpdate` filters out invalid rules and then builds breakers from the unfiltered list
  (`InvalidRuleIsServed`, `InstalledAreRecordedIff`); a statistic interval of 0 there divides by zero.
- The routing key joins service and address with a dash, so different pairs can share a key (`KeysCollide`,
  `KeysAreEqualIff`), and then one of them loses its rule (`EveryPairGetsItsOwnRuleIff`).
- `Resize` to a negative size claims more evictions than there were (`ResizeReportsTheGoneIff`).
- A second `Exit` with an error sets it on a context that is back in the pool or with another entry, whose exit is then
  recorded as an error (`LateErrorHitsAnotherEntry`, `ErrorWaitsInThePool`); `ErrorSeenIff` says exactly when, over any run.
- An idle bucket whose tokens come to lie on the warning line stays there, and the system never gets cold
  (`IdleSystemStaysWarm`); `IdleGetsColdIff` and `EverySecondGetsColdIff` say exactly when it does.

## Model

| member | source | states |
|---|---|---|
| LeapArrays.LeapArray.constructor | core/stat/base/leap_array.go:50-82 | a new circular array holds, from the slot of the current bucket on and around, one future bucket after the other, each in the slot its number belongs to |
| LeapArrays.LeapArray.CurrentBucketOfTime | core/stat/base/leap_array.go:170-217 | the slot of a time holds that time's bucket afterwards, kept or reset in place, and no other slot changes; time 0 is refused |
| LeapArrays.LeapArray.ValuesConditional | core/stat/base/leap_array.go:246-259 | exactly the buckets that are up to date and pass the test, in slot order |
| LeapArrays.LeapArray.ValuesWithTime | core/stat/base/leap_array.go:229-242 | exactly the buckets that are up to date, in slot order |
| LeapArrays.InitialWellPlaced | core/stat/base/leap_array.go:50-76 | every slot of a new array has an aligned start whose bucket number is the slot modulo the length, and all starts lie within one interval |
| LeapArrays.RefreshWellPlaced | core/stat/base/leap_array.go:170-217 | recycling keeps that placement and makes the bucket of the time current |
| LeapArrays.DistinctStarts | core/stat/base/leap_array.go:219-222 | no two slots ever hold the same start |
| LeapArrays.SameIndexGap | core/stat/base/leap_array.go:219-222 | two different starts that share a slot are at least a whole interval apart |
| LeapArrays.FreshAfterRefresh | core/stat/base/leap_array.go:262-265 | after a refresh the strict comparison keeps exactly the starts of the buckets that end with the current one, never one a full interval old |
| EventLog.RefreshTracks | core/stat/base/leap_array.go:189-215 | recycling loses no event that a later window can still reach |
| EventLog.NewBucketIsEmpty | core/stat/base/leap_array.go:189-215 | a bucket that is only now opened has no event in the log yet |
| EventLog.BucketwiseSum | core/stat/base/sliding_window_metric.go:55-71 | adding up bucket by bucket gives the total of adding event by event |
| EventLog.BucketwiseMin | core/stat/base/sliding_window_metric.go:135-159 | likewise for minima |
| MetricBuckets.AddTo | core/stat/base/metric_bucket.go:29-39 | an event's own counter grows by the count and no other changes; a response time lowers the minimum |
| SlidingWindows.BucketLeapArray.constructor | core/stat/base/bucket_leap_array.go:31-52 | a new statistic of an interval that the count divides is an array of empty buckets over just that interval, laid out for the clock |
| SlidingWindows.BucketLeapArray.AddCountWithTime | core/stat/base/bucket_leap_array.go:83-89 | the count lands in the current bucket, after it was recycled if need be |
| SlidingWindows.BucketLeapArray.UpdateConcurrencyWithTime | core/stat/base/bucket_leap_array.go:95-101 | the current bucket keeps the larger concurrency |
| SlidingWindows.BucketLeapArray.CountWithTime | core/stat/base/bucket_leap_array.go:132-152 | the total over the up-to-date buckets after making the current one current |
| SlidingWindows.BucketLeapArray.MinRt | core/stat/base/bucket_leap_array.go:168-192 | the smallest response time over the up-to-date buckets |
| SlidingWindows.SlidingWindowMetric.GetSatisfiedBuckets | core/stat/base/sliding_window_metric.go:102-110 | exactly the up-to-date buckets whose start lies in the view's range, in unsigned arithmetic |
| SlidingWindows.SlidingWindowMetric.GetSumWithTime | core/stat/base/sliding_window_metric.go:85-88 | the total over those buckets |
| SlidingWindows.SlidingWindowMetric.MinRT | core/stat/base/sliding_window_metric.go:135-159 | the smallest response time over those buckets, not below 1 |
| SlidingWindows.AcceptedViewFits | core/base/stat.go:164-183 | an accepted view reads a whole number of the parent's buckets and at most all of them |
| WindowRefinement.RunReflects | core/stat/base/leap_array.go:170-265 | after any run with a clock that does not go back every slot a later window can reach holds what the log holds for its bucket |
| WindowRefinement.NoteReflects | core/stat/base/bucket_leap_array.go:95-101 | a concurrency reading is kept by its bucket as its largest one, and nothing else changes |
| WindowRefinement.WindowSumIsLogSum | core/stat/base/sliding_window_metric.go:44-110 | an accepted view reports exactly the logged events of its window, for every run; before the clock has run for a window it reports 0 |
| WindowRefinement.WindowMinIsLogMin | core/stat/base/sliding_window_metric.go:135-159 | its minimum response time is the logged minimum of the window, clamped to [1, 60000] |
| WindowRefinement.EarlyClockReportsNothing | core/stat/base/sliding_window_metric.go:44-49 | a run on which the range wraps around below 0 and 100 recorded passes are reported as none |
| WindowRefinement.RefreshedCountIsLogSum | core/stat/base/bucket_leap_array.go:132-152 | a count with refresh is exactly the logged total of the array's own window |
| WindowRefinement.AnyClockInvariant | core/stat/base/leap_array.go:189-215 | whatever the clock does, slot i holds an aligned start that belongs in slot i and never counts more than the log has for it |
| WindowRefinement.AnyClockNeverOverReports | core/stat/base/leap_array.go:229-265 | with any clock a view never reports more than the log has for its window |
| CircuitBreakers.CircuitBreaker.constructor | core/circuitbreaker/circuit_breaker.go:263-274 | a new breaker is closed and counts from zero in an array of the layout its rule asks for |
| CircuitBreakers.CircuitBreaker.WithStat | core/circuitbreaker/circuit_breaker.go:247-261 | a new breaker on the statistic of an old one is closed and leaves the counts alone |
| CircuitBreakers.CircuitBreaker.TryPass | core/circuitbreaker/circuit_breaker.go:280-295 | passes when closed, when open and the retry time is reached (then half-open), or when half-open with a number of probes |
| CircuitBreakers.CircuitBreaker.ExitHook | core/circuitbreaker/circuit_breaker.go:176-203 | a blocked probe entry puts a half-open breaker back to open and leaves the retry time alone |
| CircuitBreakers.CircuitBreaker.OnRequestComplete | core/circuitbreaker/circuit_breaker.go:296-354 | counts the completion, then trips, fails the probe, advances it or closes and resets, by state and window counts |
| CircuitBreakers.CircuitBreaker.SumCounters | core/circuitbreaker/circuit_breaker.go:410-427 | bad and total completions over the up-to-date buckets |
| CircuitBreakers.CircuitBreaker.ResetMetric | core/circuitbreaker/circuit_breaker.go:356-360 | every up-to-date bucket starts from zero and the others stay as they are |
| CircuitBreakers.RuleGeometry | core/circuitbreaker/rule.go:129-136 | the layout of a rule covers its statistic interval; an illegal bucket count gives one bucket |
| BreakerRuns.RunStaysNaive | core/circuitbreaker/circuit_breaker.go:485-543 | from any breaker that agrees with a naive one, which keeps every completion and recounts the window, the two stay in the same control state over any run |
| BreakerRuns.BreakerIsNaiveBreaker | core/circuitbreaker/circuit_breaker.go:485-543 | so does a new breaker with a naive one that has seen nothing |
| BreakerRuns.InheritedStatisticGoesOn | core/circuitbreaker/circuit_breaker.go:437-462 | a breaker on the statistic of an old one goes on as a closed naive breaker that remembers the old completions |
| BreakerRuns.CountedWindow | core/circuitbreaker/circuit_breaker.go:375-427 | counting one completion shows the naive recount, and a reset leaves the array mirroring the empty log |
| BreakerRuns.NothingPassesBeforeRetry | core/circuitbreaker/circuit_breaker.go:141-236 | after a trip or failed probe at t no request passes before t plus the retry timeout |
| BreakerRuns.ProbeCounterIsStreak | core/circuitbreaker/circuit_breaker.go:149-155 | the probe counter is the streak of good probes; 0 when closed, otherwise 0 or below the number asked for |
| BreakerRuns.ClosesAfterEnoughGoodProbes | core/circuitbreaker/circuit_breaker.go:316-336 | a completion closes the breaker if and only if it makes the streak of good half-open probes as long as max(1, ProbeNum) |
| BreakerDecisions.OpensIffTooBad | core/circuitbreaker/circuit_breaker.go:485-543 | over every in-order run a completion opens a closed breaker if and only if the window that ends with its bucket has at least the minimum of completions since the breaker last closed and, by strategy, more slow or failed ones than the threshold less 10^-8 times a positive total, or failed ones up to the whole part of the threshold; the retry time is then the timeout later |
| BreakerDecisions.HalfOpenDecides | core/circuitbreaker/circuit_breaker.go:316-336 | over every run a completion opens a half-open breaker again if and only if it is slow or has failed; a good one counts as a probe, and closes it with the last one asked for |
| BreakerDecisions.OpenIgnoresCompletions | core/circuitbreaker/circuit_breaker.go:303-313 | no completion changes an open breaker, nor one at time 0 any |
| BreakerDecisions.RetryTimeIsKept | core/circuitbreaker/circuit_breaker.go:137-155 | the retry time is the timeout after the last trip or failed probe |
| BreakerDecisions.PassesIff | core/circuitbreaker/circuit_breaker.go:280-295 | over every run a request passes if and only if the breaker is closed, the retry time is over, or it is half-open and takes several probes; only the second changes the state |
| BreakerDecisions.HookRollsBackIff | core/circuitbreaker/circuit_breaker.go:176-203 | the hook opens a half-open breaker again if its entry was blocked, and changes nothing else |
| BreakerInterleaving.MovesFollowTheDiagram | core/circuitbreaker/circuit_breaker.go:159-236 | under any interleaving of atomic steps the successful compare-and-sets form a path of the state diagram that ends in the current state |
| BreakerInterleaving.PathBalances | core/circuitbreaker/circuit_breaker.go:159-236 | along any path of the diagram the entries and exits of each state balance with where it ends |
| BreakerInterleaving.TransitionsBalance | core/circuitbreaker/circuit_breaker.go:159-236 | so the transition counts of any interleaving balance with the current state |
| BreakerInterleaving.OneProbePerEpisode | core/circuitbreaker/circuit_breaker.go:176-203 | with ProbeNum 0 each half-open episode lets exactly one request through, under any interleaving |
| BreakerInterleaving.RequestAlone | core/circuitbreaker/circuit_breaker.go:159-295 | a request that no other goroutine comes between moves the state and is let through just as with atomic calls |
| BreakerInterleaving.CompletionAlone | core/circuitbreaker/circuit_breaker.go:159-354 | so does a completion to the state and the probe counter |
| BreakerInterleaving.HookAlone | core/circuitbreaker/circuit_breaker.go:176-203 | and the hook of a blocked entry |
| BreakerReload.CalculateReuseIndexFor | core/circuitbreaker/rule_manager.go:181-205 | the first old breaker with an equal rule, and if there is none the first one whose statistic fits |
| BreakerReload.BuildResourceCircuitBreaker | core/circuitbreaker/rule_manager.go:382-425 | the new breakers are what the plan says, old object or old statistic or all new, and pairwise distinct in object and statistic if the old ones were; building crashes exactly if a rule to be served has a statistic interval of 0 |
| BreakerReload.PlanIsLinear | core/circuitbreaker/rule_manager.go:382-425 | no old breaker or statistic is used twice, and only old ones are reused |
| BreakerReload.PlanFollowsRules | core/circuitbreaker/rule_manager.go:382-425 | there is one breaker for every servable rule, in rule order, whatever is reused |
| BreakerReload.EqualReloadKeepsAll | core/circuitbreaker/rule_manager.go:382-425 | reloading equal rules gives the same breakers in the same order |
| BreakerReload.EqualToItself | core/circuitbreaker/rule.go:113-127 | a rule equals itself exactly when its strategy is built in |
| BreakerReload.EqualByFields | core/circuitbreaker/rule.go:92-127 | which fields make a rule equal to another, and which make its statistic reusable |
| BreakerReload.PlanByFields | core/circuitbreaker/rule_manager.go:382-425 | in every plan a rule keeps the first free old breaker with the same resource, strategy, retry timeout, minimum amount, interval, bucket count, limit app, allowed response time for slow calls and a threshold to within 10^-8, if there is one; otherwise it shares the first free statistic with the same resource, strategy, interval and bucket count, if there is one |
| BreakerReload.SettingsInForce | core/circuitbreaker/rule_manager.go:382-425 | after every reload all settings in force are those asked for, except for the number of probes and less than 10^-8 of the threshold |
| BreakerReload.ReloadTakesEffectIff | core/circuitbreaker/rule_manager.go:382-425 | after a reload every breaker goes by the number of probes and the threshold asked for if and only if every old breaker that is kept, rule by rule, has just these |
| BreakerReload.InForceIsEqual | core/circuitbreaker/rule.go:104-127 | what a breaker goes by is the rule asked for or one that equality takes for the same |
| BreakerReload.ChangedProbeNumberIsOverlooked | core/circuitbreaker/rule.go:104-127 | a reload that changes only the number of probes keeps the old breaker, for all numbers |
| BreakerReload.ChangedThresholdIsOverlooked | core/circuitbreaker/rule.go:113-127 | a threshold that is less than 10^-8 smaller is overlooked though it trips one error earlier |
| BreakerLoading.RuleManager.LoadRulesOfResource | core/circuitbreaker/rule_manager.go:141-167 | clears, ignores the same list, or installs what the plan for the whole list gives and records the valid rules; other resources stay, and a crash changes nothing |
| BreakerLoading.RuleManager.OnResourceRuleUpdate | core/circuitbreaker/rule_manager.go:262-304 | builds from the list as it came, records the valid ones, and recovers from a crash |
| BreakerLoading.RecordedIff | core/circuitbreaker/rule_manager.go:427-453 | a rule is recorded exactly if it has a resource, times that are not 0 and a threshold that is not negative and, for ratios, at most 1 |
| BreakerLoading.InstalledAreRecordedIff | core/circuitbreaker/rule_manager.go:273-300 | the breakers installed are for exactly the rules recorded as valid that can be served if and only if every rule that can be served is valid |
| BreakerLoading.InvalidRuleIsServed | core/circuitbreaker/rule_manager.go:273-300 | an invalid rule that is not recorded and gets a breaker |
| RejectCheckers.RejectTrafficShapingChecker.DoCheck | core/flow/tc_default.go:44-74 | reads, adds, reads again and takes back what was too much, on the shared statistic |
| RejectCheckers.PassesIffItFits | core/flow/tc_default.go:44-74 | a check passes if and only if the batch still fits in the logged window |
| RejectCheckers.CheckReflects | core/flow/tc_default.go:44-74 | whatever the outcome the slots go on reflecting the log, in which a rejected request cancels out |
| RejectCheckers.AdmittedStayWithinThreshold | core/flow/tc_default.go:44-74 | over any run the admitted batches in any window never exceed the threshold |
| RejectInterleaving.NeverOverAdmits | core/flow/tc_default.go:44-74 | under any interleaving of any number of goroutines the count is admitted plus tentative batches, and the admitted ones never exceed the threshold |
| RejectInterleaving.QuiescentCountIsAdmitted | core/flow/tc_default.go:44-74 | once all goroutines are idle nothing of the rejected requests is left |
| RejectInterleaving.RequestAlone | core/flow/tc_default.go:44-74 | a request that no other goroutine comes between is admitted if and only if it fits, and otherwise leaves no trace |
| Pacing.ThrottlingChecker.constructor | core/flow/tc_throttling.go:27-41 | times in nanoseconds, with one second for a statistic interval of 0 |
| Pacing.ThrottlingChecker.DoCheck | core/flow/tc_throttling.go:47-116 | passes, waits or blocks by the last turn, and takes a turn only if it does not block |
| Pacing.IntervalNs | core/flow/tc_throttling.go:60-72 | the spacing is the share of the statistic interval rounded up: never too short, and by less than a nanosecond too long |
| Pacing.ReleasesAreSpaced | core/flow/tc_throttling.go:47-116 | over any run each release is at least its own spacing after the one before |
| Pacing.WaitsAreBounded | core/flow/tc_throttling.go:47-116 | waits are at most the queueing time and a rejection leaves no turn behind; a request goes at the later of now and its spacing after the last turn, and is blocked exactly when that is too far away or the threshold is not positive; an empty batch passes |
| Pacing.SpanBoundsBatches | core/flow/tc_throttling.go:47-116 | between any two releases the batches are at most the threshold's share of the span plus the first batch |
| Pacing.RunHasSameThreshold | core/flow/tc_throttling.go:47-116 | every run with one threshold meets the conditions of that bound |
| Pacing.ClusterMetric.constructor | core/flow/cluster_metric.go:19-21 | a new metric has no turn and no system time |
| Pacing.ClusterMetric.PriorityHandle | core/flow/cluster_flow_checker.go:63-120 | the token server reserves turns as the local checker does and answers waits in whole milliseconds |
| Pacing.ServerAnswersIff | core/flow/cluster_flow_checker.go:63-120 | the server lets a request through if its turn has come, refuses it if its turn is too far away, and tells it otherwise to wait, for the whole milliseconds until its turn; only a refused one takes no turn, and after a clock gone back by more than a second there is no answer |
| Pacing.ServerTurnsAreSpaced | core/flow/cluster_flow_checker.go:63-120 | over any run the server's turns are spaced like the local checker's, and each client goes on at its turn or less than a millisecond before |
| Pacing.ClientsAreAlmostSpaced | core/flow/cluster_flow_checker.go:63-120 | so clients keep all of their spacing but less than a millisecond |
| Pacing.ServerSpanBoundsBatches | core/flow/cluster_flow_checker.go:63-120 | between any two clients the batches are at most the threshold's share of the span and a millisecond plus the first batch |
| Pacing.ServerSpacingIffNotShort | core/flow/cluster_flow_checker.go:63-120 | after any run a further client keeps its whole spacing if and only if it does not wait, or waits by a fraction of a millisecond no longer than the client before it was early |
| Pacing.ServerSpacingCanBeShort | core/flow/cluster_flow_checker.go:63-120 | a run, at any time, in which the second client is let go half a millisecond too soon |
| WarmUp.WarmUpTrafficShapingCalculator.CalculateAllowedTokens | core/flow/tc_warm_up.go:53-74 | synchronises the bucket, then allows by the tokens left |
| WarmUp.WarmUpTrafficShapingCalculator.DoSyncToken | core/flow/tc_warm_up.go:76-103 | at most once per second refills and takes out what has passed, never below 0 |
| WarmUp.WarmUpTrafficShapingCalculator.CoolDown | core/flow/tc_warm_up.go:105-131 | refills below the warning line, above it only when there is little traffic, up to the top |
| WarmUp.NewConfigIsValid | core/flow/tc_warm_up.go:28-51 | a constructed configuration has room above the warning line and the slope that goes with it; the line and the room are the whole parts of the period's tokens shared out by the cold factor, 3 if none is given |
| WarmUp.TokensStayInBucket | core/flow/tc_warm_up.go:76-131 | over any run the tokens stay between 0 and the maximum |
| WarmUp.AllowedIsAntitone | core/flow/tc_warm_up.go:53-74 | more stored tokens never allow more |
| WarmUp.AllowedAtTheEnds | core/flow/tc_warm_up.go:53-74 | the whole threshold at the warning line, the cold share of it at the top |
| WarmUp.AllowedIsBounded | core/flow/tc_warm_up.go:53-74 | the allowed rate always lies between the cold share and the threshold |
| WarmUp.TimePerRequest | core/flow/tc_warm_up.go:53-74 | the time per request rises in proportion to the tokens above the warning line, from that of the threshold to the cold factor times that at the top |
| WarmUp.SyncByLevel | core/flow/tc_warm_up.go:76-131 | once a second tokens come in below the line, and above it if less passed than the threshold over the cold factor, up to the top; then what passed goes out, and at the line none come in |
| WarmUp.SustainedSecondDrains | core/flow/tc_warm_up.go:76-131 | above the warning line a second of sustained traffic takes out what passed, at least one token |
| WarmUp.WarmUpCompletes | core/flow/tc_warm_up.go:76-131 | sustained traffic reaches the warning line after at most as many synced seconds as there were tokens above it |
| WarmUp.IdleSecondRefillsIff | core/flow/tc_warm_up.go:105-131 | a second without traffic loses nothing, and brings tokens if and only if there is room, the tokens are not at the warning line nor above it with a threshold that rounds to nothing, and the time is worth a token |
| WarmUp.IdleAtTheLineForEver | core/flow/tc_warm_up.go:105-131 | a bucket that takes nothing in, at the warning line or above it with a threshold below the cold factor, stays as it is while the system is idle |
| WarmUp.IdleGetsColdIff | core/flow/tc_warm_up.go:76-131 | an idle system gets cold if and only if the time is worth enough tokens and no level that the clock makes of the tokens at the start is one that takes nothing in |
| WarmUp.IdleGetsColdIffOffTheLine | core/flow/tc_warm_up.go:76-131 | with a threshold of at least the cold factor and as many syncs as there is room, if and only if none of these levels is the warning line |
| WarmUp.EverySecondGetsColdIff | core/flow/tc_warm_up.go:76-131 | synced in every second, unless and only unless the tokens missing to the line are a multiple of the truncated threshold |
| WarmUp.IdleSystemStaysWarm | core/flow/tc_warm_up.go:76-131 | a run from the start of a system that is idle ever after and never gets cold |
| LruCaches.NewLRU | core/hotspot/cache/lru.go:26-37 | a cache of a positive size, empty, or an error |
| LruCaches.LRU.Add | core/hotspot/cache/lru.go:50-69 | the key is in front with the new value; if it is new and there is no room the oldest goes |
| LruCaches.LRU.AddIfAbsent | core/hotspot/cache/lru.go:72-95 | a present key keeps its value and comes to the front, and its element is given; an absent one is added |
| LruCaches.LRU.Get | core/hotspot/cache/lru.go:98-107 | a present key comes to the front and nothing else changes |
| LruCaches.LRU.Remove | core/hotspot/cache/lru.go:128-134 | the key is gone, the others keep their order, and the answer says whether it was there |
| LruCaches.LRU.Resize | core/hotspot/cache/lru.go:173-183 | the oldest beyond the new size go; the answer is the old length less the new size |
| LruCaches.LRU.RemoveOldest | core/hotspot/cache/lru.go:186-191 | the last element of the list and its key go |
| LruCaches.LRU.RemoveElement | core/hotspot/cache/lru.go:194-207 | the element leaves list and map together |
| LruCaches.LRU.MoveToFront | core/hotspot/cache/lru.go:50-69 | one element comes to the front and list and map still agree one to one |
| LruCaches.RunsHoldTheLatestKeys | core/hotspot/cache/lru.go:50-183 | over every sequence of additions, lookups, removals and changes of size the cache holds the keys that moving each used key to the front leaves, as many as fit |
| LruCaches.HoldsTheLatestKeys | core/hotspot/cache/lru.go:72-95 | after any history of uses these are exactly the latest keys, in order of last use |
| LruCaches.LeavesIff | core/hotspot/cache/lru.go:50-183 | a key leaves by an operation if and only if it is removed, is the oldest when a new key finds no room, or lies beyond a new size |
| LruCaches.EveryRunStaysSound | core/hotspot/cache/lru.go:50-183 | over every sequence of operations no key is there twice and the size is kept |
| LruCaches.ResizeReportsTheGoneIff | core/hotspot/cache/lru.go:173-183 | a change of size reports exactly the elements that are gone if and only if the new size is not negative |
| LruCaches.ValuesAfterStep | core/hotspot/cache/lru.go:50-145 | after every operation a key that is there has the value last added for it |
| Hotspot.RejectTrafficShapingController.PerformChecking | core/hotspot/traffic_shaping.go:353-446 | one check is one round of the specification, and the loop ends in its first round |
| Hotspot.RejectTrafficShapingController.CheckOnce | core/hotspot/traffic_shaping.go:387-445 | one round: first use, refill or plain consumption, on both caches |
| Hotspot.RejectTrafficShapingController.Refill | core/hotspot/traffic_shaping.go:400-428 | after a whole duration the share of the elapsed time comes in, up to the maximum, before the batch goes out |
| Hotspot.RejectTrafficShapingController.Consume | core/hotspot/traffic_shaping.go:429-445 | within the duration the batch goes out if it fits; a missing token entry means another round |
| Hotspot.LockstepIsKept | core/hotspot/traffic_shaping.go:387-445 | whatever is evicted, both caches keep the same keys in the same order, so no further round is needed |
| Hotspot.OthersAreKeptOrGone | core/hotspot/traffic_shaping.go:387-445 | a check on one argument leaves every other argument's state alone or evicts it from both caches |
| Hotspot.RateIsBounded | core/hotspot/traffic_shaping.go:369-442 | from first use, while cached, the batches let through are at most maxCount plus tokenCount per duration, and what is left stays in [0, maxCount] |
| Hotspot.WholeCountIsBackAfterADuration | core/hotspot/traffic_shaping.go:400-428 | more than a duration after the last refill any batch up to the token count passes, and none passes beyond what was left and came in since |
| Hotspot.FirstUseDecides | core/hotspot/traffic_shaping.go:369-398 | the first use passes if and only if the argument's rate is positive and the batch is at most rate and burst, and leaves the rest |
| Hotspot.WithinTheDurationDecides | core/hotspot/traffic_shaping.go:429-445 | up to a duration after a refill a batch passes if and only if it is at most what is left |
| Hotspot.RefillDecides | core/hotspot/traffic_shaping.go:400-428 | later than that the elapsed time is worth tokens at the argument's rate, up to rate and burst, and the batch passes if and only if it is at most these; only then the time is used up |
| Hotspot.PassesIffLeftSinceRefill | core/hotspot/traffic_shaping.go:400-445 | from any refill, while cached, a request within the duration passes if and only if the batches let through since and its own are at most the tokens it left |
| Hotspot.PassesIffLeftSinceFirstUse | core/hotspot/traffic_shaping.go:369-445 | from the first use, while cached, a request within the duration passes if and only if the batches let through and its own are at most the argument's rate and burst |
| HotspotThrottling.ThrottlingTrafficShapingController.PerformChecking | core/hotspot/traffic_shaping.go:448-502 | passes at once, waits for its turn or blocks, by the last release of the argument |
| HotspotThrottling.ThrottleStep | core/hotspot/traffic_shaping.go:480-501 | one call moves the argument's last release on by at least its cost or leaves it, and touches no other argument's |
| HotspotThrottling.CostsFitTheSpan | core/hotspot/traffic_shaping.go:480-501 | while an argument is cached the cost of all later releases fits in the time since a release of it |
| HotspotThrottling.NextReleaseIsSpaced | core/hotspot/traffic_shaping.go:480-501 | each release is at least its own cost after every release before it and waits no longer than allowed |
| HotspotThrottling.ThrottleDecides | core/hotspot/traffic_shaping.go:448-502 | the first request goes at once, a later one at its cost after the last release if that is near enough, and none without a positive rate |
| HotspotThrottling.ReleasedIffTheTurnIsNear | core/hotspot/traffic_shaping.go:480-501 | after any run, while cached, a request is released at the later of now and its cost after the last release, or refused if it would wait as long as the queueing time or longer |
| MetricItems.NumberRoundTrip | core/base/metric_item.go:40-55 | a printed number is parsed back if it is below the bound and refused if not, and holds no separator |
| MetricItems.SignedRoundTrip | core/base/metric_item.go:40-55 | likewise for a signed number |
| MetricItems.ReadAsNumberIff | core/base/metric_item.go:80-177 | the strings read as a number are its decimal form behind any number of zeros, if it is below the bound, and no others |
| MetricItems.ReadAsSignedIff | core/base/metric_item.go:126-132 | likewise for a signed number, with an optional plus; a zero may have either sign |
| MetricItems.SplitUndoesJoin | core/base/metric_item.go:72-80 | splitting gives back the columns when none holds the separator |
| MetricItems.JoinUndoesSplit | core/base/metric_item.go:72-80 | joining the columns of any line gives back the line |
| MetricItems.Cleaned | core/base/metric_item.go:43-44 | every separator in a name becomes a dash and nothing else changes |
| MetricItems.MetricItemFromFatString | core/base/metric_item.go:72-179 | the columns of the line as an item, with zeros for missing ones, or the first thing that is wrong |
| MetricItems.FirstBad | core/base/metric_item.go:80-177 | the first column that cannot be read, if there is one |
| MetricItems.FieldsByColumn | core/base/metric_item.go:72-179 | which column of a line each field of its item is read from |
| MetricItems.ColumnsAreAligned | core/base/metric_item.go:40-55 | the printed line splits into exactly the 17 columns it was made of |
| MetricItems.LineRoundTrip | core/base/metric_item.go:40-179 | parsing a printed item gives it back with a dash for every separator in its name |
| MetricItems.LineRoundTripIsExact | core/base/metric_item.go:40-179 | it comes back unchanged if and only if its name holds no separator |
| MetricItems.ShorterLines | core/base/metric_item.go:72-179 | the first columns of a printed line alone are read with zeros for the missing ones, and with fewer than eight refused |
| MetricLogs.DefaultMetricLogWriter.constructor | core/log/metric/writer.go:277-326 | the writer starts with one new file and the current second |
| MetricLogs.DefaultMetricLogWriter.Write | core/log/metric/writer.go:39-89 | ignores older seconds, marks a new one in the open file, rolls for a new day, writes, rolls when full |
| MetricLogs.DefaultMetricLogWriter.WriteIndex | core/log/metric/writer.go:145-161 | the index of the open file gets the second and the position |
| MetricLogs.DefaultMetricLogWriter.WriteItemsAndFlush | core/log/metric/writer.go:104-120 | the items follow as lines, with the time of the write |
| MetricLogs.DefaultMetricLogWriter.RollFileIfSizeExceeded | core/log/metric/writer.go:122-134 | a new file once the size is reached |
| MetricLogs.DefaultMetricLogWriter.RollToNextFile | core/log/metric/writer.go:136-143 | the oldest files go to make room and an empty one is opened |
| MetricLogs.DefaultMetricLogWriter.RemoveDeprecatedFiles | core/log/metric/writer.go:163-187 | just enough of the oldest files go |
| LogRolling.WriteOpensFiles | core/log/metric/writer.go:39-143 | a write opens one file before its lines if its day is later than that of the latest second, and one after them if they fill the open file; otherwise its lines follow there |
| LogRolling.RunKeepsBounds | core/log/metric/writer.go:122-187 | after any run of writes the open file is below the size limit, and as many files are there as were made, up to the amount that is kept |
| LogRolling.SizeOfParts | core/log/metric/writer.go:122-134 | a file is as large as its lines with a line feed each |
| MetricLogs.ReadMetricsInOneFileByEndTime | core/log/metric/reader.go:122-161 | the wanted items up to the first one out of range or the limit, and whether to go on |
| MetricLogs.ReadMetricsByEndTime | core/log/metric/reader.go:57-87 | reading file after file is one scan over all their lines |
| MetricLogs.FindOffsetToStart | core/log/metric/searcher.go:99-158 | the offset of the first index entry from the second on, or -1 |
| MetricLogs.SearchOffsetAndRead | core/log/metric/searcher.go:50-80 | a scan from the first entry in time of the first file that has one; nothing if none has |
| MetricLogs.ScanOfParts | core/log/metric/reader.go:57-87 | a scan over two parts is the scan of the first and, if that goes on, of the second with the room left |
| MetricIndexes.SearchIsAfterMark | core/log/metric/searcher.go:50-158 | searching file by file finds the lines after the first mark in time of the whole log |
| MetricIndexes.LinesReadBack | core/log/metric/writer.go:104-120 | the lines of a write read back as its items with its time and cleaned names |
| MetricIndexes.WriteIsBooked | core/log/metric/writer.go:39-89 | each accepted write keeps lines and marks in order and loses only what goes with removed files |
| MetricIndexes.RunIsBooked | core/log/metric/writer.go:39-89 | so does every run of the writer |
| MetricIndexes.RunOffsetsFit | core/log/metric/writer.go:145-161 | no index entry ever points past the end of its file |
| MetricIndexes.LogIsKept | core/log/metric/writer.go:39-187 | the files hold the latest part of what was logged, and all of it while none is removed |
| MetricIndexes.SearchIsExact | core/log/metric/searcher.go:50-158 | after any run the search gives what a linear filter over the files gives if and only if no line before the first index entry is asked for |
| MetricIndexes.SearchAfterFirstSecondIsExact | core/log/metric/searcher.go:50-158 | it does from every second after that of the first remaining line |
| MetricIndexes.SearchFindsTheLog | core/log/metric/searcher.go:50-158 | while no file is removed, from any second after the one the writer started in, it gives exactly the logged items of range and resource, in order, up to the limit |
| MetricIndexes.SearchPicks | core/log/metric/searcher.go:50-158 | what it gives are items of the log in their order, each within the seconds asked for and of the resource asked for or any for the empty name; one that is asked for is left out only behind the last one given, when the limit is reached |
| MetricIndexes.SearchCounts | core/log/metric/searcher.go:50-158 | below the limit each item asked for is found as often as it was logged, and no other |
| MetricIndexes.StartSecondIsNotFound | core/log/metric/writer.go:62-87 | an item of the second the writer started in, which no search finds |
| MetricAggregators.MetricItemFromBuckets | core/stat/base/sliding_window_metric.go:218-254 | the totals, average response time and largest concurrency of the buckets of a second |
| MetricAggregators.GroupBySecond | core/stat/base/sliding_window_metric.go:190-203 | the buckets by their second, each group in order |
| MetricAggregators.CurrentMetricItems | core/log/metric/aggregator.go:144-156 | the active items of the seconds between the last fetch and the current one |
| MetricAggregators.AggregateIntoMap | core/log/metric/aggregator.go:121-132 | each second's list gets the node's item at its end, and other seconds stay |
| MetricAggregators.MetricAggregator.DoAggregate | core/log/metric/aggregator.go:91-119 | nothing within the same second; otherwise the items of all nodes in node order, and the fetch time moves on |
| MetricAggregators.CollectedPicks | core/log/metric/aggregator.go:91-132 | the list of a second has in node order exactly one entry for each node with an item for it, with the node's name, type and item, and there is one if and only if some node has an item |
| ExportRuns.FetchedSecondIsLogged | core/stat/base/sliding_window_metric.go:190-254 | the buckets of a second add up to the item that the log has for it: every total, the average response time and the largest concurrency |
| ExportRuns.FetchGives | core/log/metric/aggregator.go:139-156 | a timely fetch gives for each active second in its range the item of the log, and for no other second any |
| ExportRuns.ExactlyOnce | core/log/metric/aggregator.go:91-156 | over every timely run exactly one item has been exported for each active finished second, the one of the log, and none for any other second |
| ExportRuns.ActiveIffSomething | core/log/metric/aggregator.go:134-137 | a second is active if and only if something passed, was blocked, completed or failed in it, or its average response time or largest concurrency is not 0 |
| ExportAll.EveryNodeExactlyOnce | core/log/metric/aggregator.go:91-156 | over every timely run with any number of nodes a finished second has been exported with exactly one entry for each node active in it, in node order, with its name, type and the totals of its log |
| ExportRuns.ExportedCount | core/log/metric/aggregator.go:91-156 | so each total of a finished second is exported if the second is active |
| ExportRuns.TotalsAreConserved | core/log/metric/aggregator.go:91-156 | the exported passes, blocks, completions and errors are those of the log up to the last fetch |
| ExportRuns.CountIsConservedIff | core/log/metric/aggregator.go:134-156 | any total, a kind of block too, is conserved if and only if every finished second that has some of it is active |
| ExportRuns.KindsAreConserved | core/log/metric/aggregator.go:134-156 | the kinds of blocks are conserved when each is logged with a block in the same second |
| ExportRuns.KindAloneIsLost | core/stat/stat_slot.go:51-55 | a run in which a second ends between a block and its kind, and the kind leaves in no item |
| SlotChains.AddsKeepOrder | core/base/slot_chain.go:143-183 | after any additions the slots are in order, none is lost, and those of one order are as added |
| SlotChains.SlotChain.AddRuleCheckSlot | core/base/slot_chain.go:154-161 | a slot is put behind all of its order or less |
| SlotChains.SlotChain.AddRouterSlot | core/base/slot_chain.go:178-183 | likewise for a router |
| SlotChains.SlotChain.GetPooledContext | core/base/slot_chain.go:126-130 | a context from the pool, with whatever error was set on it there, or a new one |
| SlotChains.SlotChain.RefurbishContext | core/base/slot_chain.go:132-137 | the context is cleared and goes back to the pool |
| SlotChains.SlotChain.Prepare | core/stat/stat_prepare_slot.go:27-31 | the context gets the node of its resource, made when it comes for the first time |
| SlotChains.SlotChain.Check | core/base/slot_chain.go:201-220 | the first block along the slots |
| SlotChains.FirstBlockIffSome | core/base/slot_chain.go:201-220 | there is a block if and only if some slot blocks, and it is that of the first to do so |
| SlotChains.SlotChain.Entry | core/base/slot_chain.go:187-267 | prepares, checks, routes and records: the verdict, and both nodes' new states |
| SlotChains.SlotChain.OnEntryPassed | core/stat/stat_slot.go:41-49 | the resource node and, for inbound traffic, the inbound node count a pass and one more in flight |
| SlotChains.SlotChain.OnEntryBlocked | core/stat/stat_slot.go:51-62 | both count the block, the resource node also its kind, and nothing is in flight |
| SlotChains.SlotChain.Exit | core/base/slot_chain.go:269-284 | a blocked entry changes nothing; a passed one is recorded as complete on its nodes |
| SlotChains.StatNode.RecordPass | core/stat/stat_slot.go:73-80 | one more in flight, and a pass |
| SlotChains.StatNode.RecordBlockForType | core/stat/stat_slot.go:91-115 | the event of the kind of block, if it has one |
| SlotChains.StatNode.RecordComplete | core/stat/stat_slot.go:117-127 | error if there is one, response time and completion in this order, and one less in flight |
| SlotChains.SeaEntry.WhenExit | core/base/entry.go:43-50 | a handler added later runs earlier |
| SlotChains.SeaEntry.Exit | core/base/entry.go:120-152 | handlers and records run the first time only, and the context goes back to the pool; a later call does no more than set its error on that context |
| SlotChains.Enter | api/api.go:167-222 | a blocked entry is exited at once and not given out; a passed one is given out with its node in flight, on a context from the pool and with the error set there, or on a new one |
| SlotChains.CheckPass | core/isolation/slot.go:47-66 | passes if and only if every concurrency rule admits the batch, in 32-bit arithmetic; otherwise names one that does not |
| EntryRuns.InFlightIsConserved | core/base/slot_chain.go:187-284 | over any interleaving of entries and exits a node's concurrency is the number of entries let in and not yet exited, and passes less completions are their batches |
| EntryRuns.AllGoneIsIdle | core/stat/stat_slot.go:117-127 | when every entry has been exited every concurrency is 0 |
| EntryRecords.RecordsAreShares | core/stat/stat_slot.go:41-127 | over any run the total of every event on a node is what its entries, blocks, kinds of block and first exits bring; the node of all inbound traffic has no kinds |
| EntryRuns.ExitingAgain | core/base/entry.go:120-152 | exiting again changes no node, entry or pool, and nothing at all if and only if it brings no new error |
| EntryRuns.RunKeepsOwnContexts | core/base/slot_chain.go:126-137 | over any run entries in flight hold contexts of their own |
| EntryRuns.MarkedIffLate | core/base/entry.go:131-149 | over any run a context has an error set if and only if there was a late error on it that nothing has cleared since |
| EntryRuns.ErrorSeenIff | core/base/entry.go:131-149 | after any run an exit is recorded as an error if and only if it brings one itself or there was a late error on its context that nothing has cleared since |
| EntryRuns.ErrorsAreOwn | core/base/entry.go:131-133 | in a run without late errors an exit is recorded as an error if and only if it brings one itself |
| EntryRuns.LateErrorShowsIff | core/base/entry.go:131-133 | a late error changes what the exit right after it records if and only if that entry holds the same context and has no error of its own or set already |
| EntryRuns.ErrorWaitsInThePool | core/base/context.go:133-152 | an error set on a free context hits the next entry that is let in on it |
| EntryRuns.LateErrorHitsAnotherEntry | core/base/entry.go:131-133 | a run in which an entry that exits without an error is recorded with one |
| EntryRuns.RuleKeepsItsBound | core/isolation/slot.go:47-66 | a rule keeps its bound if and only if the batch is positive and does not wrap around with the threshold |
| EntryRuns.LetInIsAdmitted | core/isolation/slot.go:30-66 | with the isolation slot in the chain, what gets in is admitted by every rule of the resource |
| EntryRecords.DecidedBy | core/base/slot_chain.go:187-240 | an entry is blocked with what the first router to block says, or if none does, the first check to block |
| EntryRecords.IsolationBlocksIff | core/isolation/slot.go:30-66 | the isolation slot blocks if and only if those in flight and the batch, as a 32-bit sum, exceed a concurrency threshold of the resource |
| EntryRuns.ConcurrencyIsBounded | core/isolation/slot.go:47-66 | over any run with such batches concurrency never exceeds the threshold of any rule |
| EntryRuns.UnfairBatchBreaksTheBound | core/isolation/slot.go:47-66 | for every other batch there is a run that takes concurrency over the threshold |
| WeightRouters.GetTargetIndexByWeightRule | core/weight_router/rule_manager.go:205-247 | the node whose running total is the first to reach the bucket of the random number, or an error, for any weights |
| WeightRouters.ChooseByWeight | core/weight_router/rule_manager.go:217-246 | running totals with the test for overflow, in 64-bit arithmetic, and the first total that reaches the bucket |
| WeightRouters.TotalsAreSums | core/weight_router/rule_manager.go:218-228 | with weights that are not negative the test strikes if and only if the sum does not fit, and otherwise the totals are the sums |
| WeightRouters.ChosenBySums | core/weight_router/rule_manager.go:205-247 | so the choice is by the sums |
| WeightRouters.NegativeTotalLooksLikeOverflow | core/weight_router/rule_manager.go:221-228 | after a total below zero any weight that is not negative looks like an overflow |
| WeightRouters.IsWeightRuleInEffect | core/weight_router/rule_manager.go:195-203 | the weight of the first rule of the pair |
| WeightRouters.ReachedIffBetween | core/weight_router/rule_manager.go:229-242 | a bucket selects a node if and only if it lies behind the weights before it and within those up to it |
| WeightRouters.SelectsByWeight | core/weight_router/rule_manager.go:205-247 | exactly as many buckets select a node as its weight says |
| WeightRouters.ChosenByWeight | core/weight_router/rule_manager.go:205-247 | of as many consecutive random numbers as the total weight each node is chosen by just as many as its weight |
| WeightRouters.EveryBucketComesUp | core/weight_router/rule_manager.go:229-236 | every bucket comes up for some random number |
| WeightRouters.ChosenIffTotalFits | core/weight_router/rule_manager.go:217-246 | there is a choice if and only if the total is positive and fits; a prefix sum that does not fit is the overflow error; a chosen node has a positive weight |
| WeightRouters.RuleManager.LoadRules | core/weight_router/rule_manager.go:27-70 | the valid rules in their order; the same list again is not loaded |
| WeightRouters.ValidOnesAreValid | core/weight_router/rule_manager.go:50-58 | what is loaded are exactly the rules with an address, a weight that is not negative and one of the two types |
| WeightRouters.RuleManager.GetActualRules | core/weight_router/rule_manager.go:119-147 | one rule per key, in any order |
| WeightRouters.RuleManager.GetTargetNodeByWeightRule | core/weight_router/rule_manager.go:149-192 | the choice by the weights of the applying rules, whatever order they are listed in |
| WeightRouters.ClientRulesComeFirst | core/weight_router/rule_manager.go:131-139 | per key the first client rule applies, and without one the last rule |
| WeightRouters.OrderDoesNotMatter | core/weight_router/rule_manager.go:141-147 | the weight of a pair does not depend on the order of the rule list |
| WeightRouters.LoadedWeightsAreNonNegative | core/weight_router/rule_manager.go:50-58 | rules as they are loaded give no negative weights |
| WeightRouters.PairGetsItsOwnRuleIff | core/weight_router/rule_manager.go:131-139 | a pair gets the rule with priority among its own if and only if it has none or the winner under its key is one of them |
| WeightRouters.WithoutRuleTenThousand | core/weight_router/rule_manager.go:149-203 | a pair without a rule has the weight 10000 |
| WeightRouters.EveryPairGetsItsOwnRuleIff | core/weight_router/rule_manager.go:131-139 | every pair does if and only if no two rules of different pairs share a key |
| WeightRouters.RoutedByOwnWeights | core/weight_router/rule_manager.go:149-192 | then nodes are chosen by the weights of their own rules |
| WeightRouters.KeysAreEqualIff | core/weight_router/rule_manager.go:132-132 | two pairs share a key if and only if they are the same or the longer service name goes on with a dash and a part that the other address starts with |
| WeightRouters.WithoutDashesKeysAreDistinct | core/weight_router/rule_manager.go:132-132 | so they do not if service names have no dash, nor if addresses have none |
| WeightRouters.KeysCollide | core/weight_router/rule_manager.go:132-132 | two rules of different pairs with one key, of which one is lost |

## Left out

- Aliasing of buckets: a slot of the array is a record with its start and value, so a bucket handed out is its slot number, not a pointer that outlives a recycling.
- Concurrent recycling of buckets: the array's lock is not modelled, calls on one statistic are atomic except in the two interleaving models.
- Integer widths: counters, tokens and times are unbounded integers; wrap-around is written out for the view's range, the expiry test, isolation and the routing sum, and elsewhere values are taken to stay in range.
- Time past 2^63 milliseconds: the window lemmas ask for clocks below it.
- Floating point: rounding of ratios and the `Nextafter` step of the warm-up are not modelled.
- The three breakers: one class, told apart by the strategy of its rule, since the code differs only in what counts as bad and when it trips.
- RejectInterleaving: all steps fall into one window, so no time passes between them.
- Breaker timing under interleaving: the retry time is stored after the state, so the quiet period is proved for atomic calls only; snapshots and state listeners are left out.
- Pacing under interleaving: with atomic calls the second look at the queue never blocks, so it is not a branch of the model.
- CalculateReuseIndexFor: custom breaker generators are not modelled, a rule with such a strategy gets no breaker.
- BreakerLoading: loading the rules of all resources at once, which filters first and then builds from the valid rules.
- Breaker thresholds below zero: an error count is cut to a whole number by floor, where the conversion in the source is not defined.
- Reject check without statistics: the code passes everything then; both statistics are taken to be there.
- Warm-up configurations whose truncated token numbers leave no room above the warning line: the slope is infinite there; the constructor function gives no configuration.
- Hotspot rules by concurrency, and how an argument is taken from a call.
- LRU: the eviction callback, `Purge`, `Peek`, `Contains`, `GetOldest` and `Keys` (whose write index never moves) are left out; keys are strings in the hotspot models.
- MetricItemFromFatString: a number that is malformed and one that is out of range are the same error.
- Metric log positions: files are sequences of lines and positions count lines, not bytes; a line feed in a resource name is not modelled; sizes count characters.
- Metric log files: names, listing order, reading errors and the position cache of the searcher (which the search does not use) are left out, as is reading by a maximum number of lines.
- Aggregation of CPU and load items, the channel to the writer and the flush timer.
- MetricItems: the line without the printed time, which nothing parses, is left out.
- Adding of prepare and statistic slots, which goes as that of checks.
- Slots: preparation makes the resource node and there is one statistic slot; other statistic slots and panics are left out. Grey routing results are left out, only a router's block counts.
- SlotChains.StatNode: what is recorded is a list; how the window counts it is the subject of the window modules.
- Rules of mocks and grey routing, retries, system metrics, exporters, configuration, and everything over the network.
