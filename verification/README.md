# Performance tester statistics core, in Dafny

This project models the statistics engine of the `platformCachePerformanceTester`
Lightning Web Component. The component runs a catalog of named backend tests in
two modes, `A` and `B`, and keeps running aggregates for each test and mode.
Every completed sample is folded into those aggregates, and the raw sample is
forwarded to the test's chart.

The model covers four parts of the component:

- `average` is the arithmetic mean. It throws on an empty list, because
  `reduce` is called without an initial value.
- `trimmedAverage` is a spreadsheet-style trim. Below ten samples it is the
  plain mean. From ten samples on, it is the mean of the samples strictly
  inside `(mean/3, mean*3)`, kept in their original order.
- `recordTestResult` finds the last catalog entry with the given `TestType`.
  It selects `ModeA` for mode `"A"` and `ModeB` for any other mode. It then
  updates `TotalDuration`, `Counter`, `Durations`, `Average`, `HighVal` and
  `LowVal`, and emits `(testType, duration, series)` to the chart.
- The per-test logic of `makeApexCalls` issues mode `"A"` and then mode `"B"`
  for every entry. It records a response only when the response is truthy.

Modules, leaf to root:

- `Results` holds `Option`, `Result` and the two exceptions the core can
  raise. `EmptyAggregateSet` is `reduce` over an empty array. `UnknownTest` is
  a property read on the still-`null` test.
- `Samples` holds `Sum`, `Average`, `Band`, the `FilterBand` loop and
  `TrimmedAverage`.
- `ModeStatistics` holds the `ModeStats` record, the one-sample update
  `Record`, and the fold `RecordAll`.
- `TestCatalog` holds `TestDef`, the catalog as a `seq<TestDef>`, the lookup
  and `RecordTestResult`.
- `TestDriver` holds one invocation cycle, the truthiness filter, and `Replay`.
  `Replay` applies completions one at a time, in arrival order.
- `Scenarios` holds concrete runs worked out from the definitions.

Durations are `real`, so sums, means and band comparisons are exact.

Behaviour of the code worth knowing, each fact proved in the model:

- `recordTestResult` sends every mode other than `"A"` to `ModeB` and chart
  series 1. No mode is rejected (`Scenarios.OtherModesGoToModeB`).
- A trimmed-mean failure escapes `recordTestResult`. By the time it is raised,
  `TotalDuration`, `Counter` and `Durations` have already been updated
  (lines 108-110). `Average`, `HighVal` and `LowVal` keep their old values,
  and no chart update is sent. `Record` returns `Aborted` with the partly
  updated record.
- Nine samples of 1 and one of 1000 make the call throw. The mean is 100.9,
  and the band (33.6, 302.7) holds no sample
  (`Scenarios.OutlierEmptiesTheBand`). Strictly positive samples can empty the
  band too: nine 1s and one 21 (`Scenarios.PositiveSamplesCanEmptyTheBand`).
- `LowVal` uses 0 to mean "unset". After a sample of 0, the next sample
  becomes `LowVal` even when it is not the smallest
  (`Scenarios.ZeroSampleLosesTheMinimum`).
- An aborted step leaves `HighVal` and `LowVal` behind: after nine 1s and a
  21, `HighVal` is still 1 (`Scenarios.AbortedStepMissesTheMaximum`).
- `HighVal` and `LowVal` equal the true extremes for strictly positive
  samples whose trimmed mean never failed
  (`ModeStatistics.RecordAllTracksExtremes`).
- Samples are not checked for being finite or non-negative: the code accepts
  any number.

## Model

| member | source | states |
|---|---|---|
| Samples.Average | force-app/main/default/lwc/platformCachePerformanceTester/platformCachePerformanceTester.js:179-181 | Fails with `EmptyAggregateSet` exactly when the list is empty. Otherwise the result times the length equals the sum. |
| Samples.AverageWithinExtremes | force-app/main/default/lwc/platformCachePerformanceTester/platformCachePerformanceTester.js:179-181 | The mean of a non-empty list lies between its smallest and largest sample. |
| Samples.Band | force-app/main/default/lwc/platformCachePerformanceTester/platformCachePerformanceTester.js:166-170 | Every kept sample lies strictly inside (lo, hi), and no more samples are kept than were given. |
| Samples.BandKeepsExactlyTheInside | force-app/main/default/lwc/platformCachePerformanceTester/platformCachePerformanceTester.js:166-170 | A value strictly inside the band is kept exactly as often as it occurs in the input. A value outside the band is never kept. |
| Samples.BandEmptyWhenNothingInside | force-app/main/default/lwc/platformCachePerformanceTester/platformCachePerformanceTester.js:166-170 | When no sample lies strictly inside the band, nothing is kept. |
| Samples.FilterBand | force-app/main/default/lwc/platformCachePerformanceTester/platformCachePerformanceTester.js:163-170 | The front-to-back `forEach`/`push` loop with the test `v < max && v > min` produces exactly `Band`, in input order. |
| Samples.TrimmedAverage | force-app/main/default/lwc/platformCachePerformanceTester/platformCachePerformanceTester.js:155-173 | An empty list fails with `EmptyAggregateSet`, and no other error is possible. |
| Samples.TrimmedAverageUntrimmed | force-app/main/default/lwc/platformCachePerformanceTester/platformCachePerformanceTester.js:156-162 | With 1 to 9 samples nothing is trimmed. The result is the plain mean. |
| Samples.TrimAroundInBand | force-app/main/default/lwc/platformCachePerformanceTester/platformCachePerformanceTester.js:163-172 | A successful mean of the kept samples lies strictly inside (avg/3, avg*3). |
| Samples.TrimAroundFailsIffBandEmpty | force-app/main/default/lwc/platformCachePerformanceTester/platformCachePerformanceTester.js:163-172 | The mean of the kept samples fails if and only if no sample lies strictly inside (avg/3, avg*3). |
| Samples.TrimAroundIsBandMean | force-app/main/default/lwc/platformCachePerformanceTester/platformCachePerformanceTester.js:163-172 | A successful trim is the mean of exactly the samples kept in the band: the band is non-empty and the result times its size equals its sum. |
| Samples.TrimmedAverageIsBandMean | force-app/main/default/lwc/platformCachePerformanceTester/platformCachePerformanceTester.js:156-172 | From ten samples on, the trimmed mean is the trim around the plain mean, that is the mean of the samples strictly inside (mean/3, mean*3). |
| Samples.TrimmedAverageInBand | force-app/main/default/lwc/platformCachePerformanceTester/platformCachePerformanceTester.js:163-172 | From ten samples on, a successful trimmed mean lies strictly inside (mean/3, mean*3). |
| Samples.TrimmedAverageFailsIffBandEmpty | force-app/main/default/lwc/platformCachePerformanceTester/platformCachePerformanceTester.js:163-172 | From ten samples on, the trimmed mean fails if and only if no sample lies strictly inside (mean/3, mean*3). |
| ModeStatistics.Record | force-app/main/default/lwc/platformCachePerformanceTester/platformCachePerformanceTester.js:108-113 | Total, counter and history always take the sample, even when the trimmed mean fails. On success, the average is the trimmed mean of the new history, `HighVal` is the larger of the old value and the sample, and `LowVal` is the smaller one, or the sample when `LowVal` was 0. On failure, average and extremes are unchanged. |
| ModeStatistics.RecordKeepsConsistent | force-app/main/default/lwc/platformCachePerformanceTester/platformCachePerformanceTester.js:108-110 | If `Counter == \|Durations\|` and `TotalDuration == sum(Durations)` held before, they hold after, whatever the outcome. |
| ModeStatistics.RecordCompletesBelowThreshold | force-app/main/default/lwc/platformCachePerformanceTester/platformCachePerformanceTester.js:160-162 | A sample that brings the history to fewer than ten entries is always recorded completely. |
| ModeStatistics.RecordAllAppends | force-app/main/default/lwc/platformCachePerformanceTester/platformCachePerformanceTester.js:108-110 | After a run of samples, the history is the old history followed by the samples in arrival order. The counter grows by their number and the total by their sum. |
| ModeStatistics.ShortRunsNeverAbort | force-app/main/default/lwc/platformCachePerformanceTester/platformCachePerformanceTester.js:160-162 | A run of samples that keeps the history below ten entries never has a failing step. |
| ModeStatistics.RecordTracksExtremes | force-app/main/default/lwc/platformCachePerformanceTester/platformCachePerformanceTester.js:112-113 | A completed positive sample keeps `HighVal`/`LowVal` equal to the maximum/minimum of a positive history. |
| ModeStatistics.RecordAllTracksExtremes | force-app/main/default/lwc/platformCachePerformanceTester/platformCachePerformanceTester.js:112-113 | From a fresh record, with strictly positive samples and no failed step, `HighVal` and `LowVal` are the largest and smallest sample. |
| TestCatalog.FindLast | force-app/main/default/lwc/platformCachePerformanceTester/platformCachePerformanceTester.js:100-105 | Finds nothing exactly when no entry has the key. Otherwise it returns an entry with the key, and no later entry has it. |
| TestCatalog.LookupTest | force-app/main/default/lwc/platformCachePerformanceTester/platformCachePerformanceTester.js:100-105 | The front-to-back scan that overwrites on every match ends holding the last match. |
| TestCatalog.FindLastDependsOnKeysOnly | force-app/main/default/lwc/platformCachePerformanceTester/platformCachePerformanceTester.js:100-105 | The lookup depends only on the keys. Updating statistics never changes which entry a key resolves to. |
| TestCatalog.RecordTestResult | force-app/main/default/lwc/platformCachePerformanceTester/platformCachePerformanceTester.js:99-116 | An unknown test fails with `UnknownTest` and leaves the catalog untouched. Otherwise only the last matching entry changes, and in it only the selected mode record. Mode `"A"` selects `ModeA` and every other mode `ModeB`. A success emits the raw duration, on series 0 for `"A"` and 1 otherwise. |
| TestCatalog.RecordTestResultKeepsConsistent | force-app/main/default/lwc/platformCachePerformanceTester/platformCachePerformanceTester.js:106-110 | Every mode record of the catalog stays consistent after any call, whatever the outcome. |
| TestDriver.IssueCycle | force-app/main/default/lwc/platformCachePerformanceTester/platformCachePerformanceTester.js:121-136 | One cycle issues two requests per entry, in catalog order: the entry's key with mode `"A"`, then with `"B"`. |
| TestDriver.Admit | force-app/main/default/lwc/platformCachePerformanceTester/platformCachePerformanceTester.js:124-128 | A response becomes a completion if and only if it is truthy. A value of 0, an empty value and a rejection are dropped. |
| TestDriver.AdmitAll | force-app/main/default/lwc/platformCachePerformanceTester/platformCachePerformanceTester.js:121-137 | Every truthy response becomes a completion. Every completion comes from some admitted response, and none has duration 0. |
| TestDriver.Replay | force-app/main/default/lwc/platformCachePerformanceTester/platformCachePerformanceTester.js:99-116 | Applying completions in order keeps the catalog's length and keys. It emits at most one chart update per completion. |
| TestDriver.ReplayKeepsConsistent | force-app/main/default/lwc/platformCachePerformanceTester/platformCachePerformanceTester.js:108-110 | Any sequence of completions keeps every counter and total in step with its history. |
| TestDriver.RecordTestResultOnKey | force-app/main/default/lwc/platformCachePerformanceTester/platformCachePerformanceTester.js:106-110 | One completion extends exactly the history it targets, by its duration. |
| TestDriver.ReplayAppendsInDeliveryOrder | force-app/main/default/lwc/platformCachePerformanceTester/platformCachePerformanceTester.js:106-110 | Each mode record's history grows by exactly the durations routed to it, in delivery order. Its counter grows by their number. |
| TestDriver.ReplayLeavesShadowedEntries | force-app/main/default/lwc/platformCachePerformanceTester/platformCachePerformanceTester.js:100-106 | An entry followed by a later entry with the same `TestType` is never updated. |
| Scenarios.OutlierEmptiesTheBand | force-app/main/default/lwc/platformCachePerformanceTester/platformCachePerformanceTester.js:163-172 | Nine 1s and one 1000 make the trimmed mean throw. |
| Scenarios.TenZerosEmptyTheBand | force-app/main/default/lwc/platformCachePerformanceTester/platformCachePerformanceTester.js:163-172 | Ten 0s make the trimmed mean throw. |
| Scenarios.PositiveSamplesCanEmptyTheBand | force-app/main/default/lwc/platformCachePerformanceTester/platformCachePerformanceTester.js:163-172 | Nine 1s and one 21, all positive, make the trimmed mean throw. |
| Scenarios.AbortedStepMissesTheMaximum | force-app/main/default/lwc/platformCachePerformanceTester/platformCachePerformanceTester.js:108-113 | After nine 1s and a 21 whose trimmed mean throws, `HighVal` is still 1 although the largest sample is 21. |
| Scenarios.ThreeSamples | force-app/main/default/lwc/platformCachePerformanceTester/platformCachePerformanceTester.js:108-113 | Samples 10, 20, 30 give counter 3, total 60, average 20, high 30 and low 10. |
| Scenarios.ZeroSampleLosesTheMinimum | force-app/main/default/lwc/platformCachePerformanceTester/platformCachePerformanceTester.js:113 | After samples 5, 0, 7, `LowVal` is 7 although the minimum is 0. |
| Scenarios.DeliveryOrderIsKept | force-app/main/default/lwc/platformCachePerformanceTester/platformCachePerformanceTester.js:108-110 | Samples 30 then 10 give the history [30, 10] and the total 40. |
| Scenarios.UnknownTestChangesNothing | force-app/main/default/lwc/platformCachePerformanceTester/platformCachePerformanceTester.js:100-106 | A sample for test "X" against a catalog holding only "Login" fails and changes nothing. |
| Scenarios.OtherModesGoToModeB | force-app/main/default/lwc/platformCachePerformanceTester/platformCachePerformanceTester.js:106-115 | Mode "C" lands on `ModeB` and chart series 1, and `ModeA` is untouched. |
| Scenarios.CycleDropsFalsyResponses | force-app/main/default/lwc/platformCachePerformanceTester/platformCachePerformanceTester.js:121-137 | A one-test cycle issues ("Login", "A") then ("Login", "B"). Responses of 0, empty and rejected are dropped. |

## Left out

- Component lifecycle and DOM (`connectedCallback`, `cardComponents`, `initCardCharts`, the card lookup in `updateChart`): this is UI plumbing. The model produces the `ChartUpdate` value the code would hand to the card.
- The Apex calls `getTestConfigMetadata` and `executeTest`, and the `JSON.parse` of the configuration: these are foreign calls. The catalog is an initial `seq<TestDef>`, and each response is a given `Response`.
- The empApi subscription, `onError`, `handleEventSubscribe`, `registerEventErrorListener` and `handleCompletedTest`: this is an asynchronous transport. `handleCompletedTest` only forwards its payload into `recordTestResult` without a truthiness check. Such a payload enters `Replay` directly as a `Completion`.
- Timers and buttons (`setInterval`/`clearInterval`, the start, stop and interval-change handlers): this is wall-clock scheduling with no state the statistics depend on. Start is not guarded against a second start, and nothing of that is modelled.
- Interleaving of asynchronous completions: the single-threaded runtime applies them one at a time, so `Replay` takes them as an ordered sequence. Any arrival order is one such sequence.
- The unused `Math.min(values)` / `Math.max(values)` at lines 157-158: nothing reads their results.
- IEEE-754 rounding, NaN and infinities: durations are exact reals. A NaN response, which is falsy in JavaScript, is not represented.
- `console.log` output.
- TestDriver.AdmitAll: states which completions are produced and where each comes from, but not that they keep the settling order or their multiplicity. The definition appends in order.
- Samples.TrimmedAverage: its own contract covers only the failure cases. The value is stated by lemmas. `TrimmedAverageUntrimmed` covers fewer than ten samples. From ten samples on, `TrimmedAverageIsBandMean` and `TrimAroundIsBandMean` state it is the mean of exactly the samples strictly inside (mean/3, mean*3). `TrimmedAverageInBand` and `TrimmedAverageFailsIffBandEmpty` give its bound and its failure condition.
