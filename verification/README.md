# A verified model of the wrk-rs benchmark

`wrk-rs` loads a server over HTTP/1.1, HTTP/2 or HTTP/3 and reports latencies,
rates and errors. This project models the parts of it that compute something and
proves what its numbers mean:

- **The histogram.** `Histograms` says what it means for a direct-addressed
  histogram to hold a list of samples, and that the scans over `min..=max` then
  compute statistics of these samples. `Stats` is the object itself, with its
  array and its loops, each method proved against the functions of `Histograms` and
  `Correction`. `Accumulators` has the words in which its scans add up, and when they
  do not wrap. `Correction` explains the coordinated-omission correction as a
  replacement of every sample by its echoes, and `Exactness` decides when the figures
  of a corrected histogram are those of the echoes. `Moments` has the laws of mean,
  variance and the "+/- Stdev" column.
- **Concurrent recording.** `ConcurrentRecord` runs `record` on any number of
  threads, one atomic operation per step, with stale loads and spurious failures.
  At quiescence the result is the sequential histogram; and a thread never depends on
  the others to return.
- **The accounting.** `Exchanges` is the machine of one stream for each of the
  three protocols, `Accounting` the system of all workers, connections, streams and
  rate recorders over all interleavings, and `Rates` what the recorders compute. The laws are ledgers: what has been posted
  plus what the streams still owe is what the trace of events says. `Tasks` and
  `Connections` are the loops as the program runs them, proved to have the effect of
  runs of that machine. `Loops`, `Places` and `Journeys` say which way the loops and the
  machine go, read off replies and traces alone: which turns and rounds are taken, where
  every task is and what it may do next, and that machine and loops have the same runs.
- **The text.** `Units` is the number formatter with its promotion ladder, `Scanner`
  the scanners of the command line, `Url` the URL parser and the Host header.
- **The program.** `Benchmark` is the product of the accounting and of two recording
  machines, one for each shared histogram, and says what these hold when a run is over.
  `Report` sizes the histogram, corrects it and prints its figures.

`Words`, `Samples` and `Text` are shared vocabulary: 64-bit words, lists of
samples with their counts and sums, and the string library.

Conventions. The 64-bit counters of the histogram wrap around, so bucket contents
and totals are stated modulo 2^64 (`Wrap`) and exactly when there are fewer than
2^64 samples. Floating-point numbers are exact reals. What the network does, how long
an exchange takes and what the stop flag reads are inputs. Everything is bounded only
where the program is.

## Findings

Where the code and its promises part, the model follows the code, and the exact
condition is proved.

- `correct` never lowers `min`. With fewer than 2^64 expanded samples, the figures after
  correction are those of the expanded samples if and only if no echo falls below the recorded minimum, that is, if
  `min <= e + 1 + (v - 1) % e` for every non-empty bucket `v > e`
  (`Exactness.ConditionOnBuckets`). This decides the mean, which otherwise is too low
  (`Exactness.MeanExactIff`), the percentiles below 100 taken together
  (`Exactness.PercentilesExactIff`), the printed figures taken together
  (`Report.ReportLatency`), the stored bounds (`Correction.CorrectIsExactIff`) and the
  scanned total (`Correction.ScanSeesAllIff`). The case of the
  repository's own unit test (one sample of 100, interval 10) violates it:
  nine samples are counted, one is scanned, the mean is below every sample and the
  median is 0 (`Correction.CorrectionCanLoseSamples`).
- A percentile of 100 or more is reported as 0, because its rank exceeds the total
  (`Histograms.PercentileIsOrderStatistic`).
- The repository's README says that a sample equal to the timeout is discarded
  (README.md:400). The code records it (`Exchanges.SizedHistogramRefusesNothing`).
- Writing a parsed target with its Host header and parsing it again may give another
  target: exactly when the port is the default one and the host itself ends in a
  colon and digits (`Url.Reparse`, `Url.ExplicitDefaultPortIsLost`).
- A stream that is dropped when its worker ends loses its local count of finished
  requests: `complete` is short by exactly these (`Accounting.FinalReport`), while
  the histogram and the timeouts still cover every finished exchange
  (`Benchmark.LatencyOfRun`).

## Model

| member | source | states |
|---|---|---|
| `Histograms.RecordRepresents` | src/stats.rs:53-100 | recording an accepted sample turns the histogram of `s` into the histogram of `s` and that sample: its bucket, the total and both bounds |
| `Histograms.RecordAllRepresents` | src/stats.rs:53-100 | after any calls in sequence the histogram holds exactly the accepted ones, in their multiplicities, with exact bounds; samples at or above the limit leave no trace |
| `Histograms.EmptyRepresents` | src/stats.rs:30-43 | a freshly allocated histogram, with its inverted window, holds no samples |
| `Histograms.RepresentsUnique` | src/stats.rs:19-25 | the samples determine every field of the histogram, whatever their order |
| `Histograms.RepresentsReordered` | src/stats.rs:53-100 | the order of recording does not matter |
| `Histograms.NothingWrapped` | src/stats.rs:57-58 | with fewer than 2^64 samples all buckets and the total are exact counts |
| `Histograms.ExactCounters` | src/stats.rs:145-150 | then every non-empty bucket lies in `min..=max` and the window lies in the array |
| `Histograms.WindowSumIsSampleSum` | src/stats.rs:146-151 | a scan over `min..=max` of a histogram whose non-empty buckets lie there sums over all samples, for every weight |
| `Histograms.RankIsFloor` | src/stats.rs:14-16 | the rank of a percentile below 100 is `floor(p * count / 100) + 1`; from 100 on it exceeds the count, unless that is the largest word |
| `Histograms.PercentileIsOrderStatistic` | src/stats.rs:196-214 | for every `p`: below 0 the minimum, from 100 on 0 (the maximum if there are exactly 2^64 - 1 samples), and between them the sample of index `floor(p * count / 100)` of any sorted arrangement |
| `Histograms.PercentileMonotone` | src/stats.rs:196-214 | percentiles below 100 grow with `p` and stay within `min..=max` |
| `Histograms.PopcountCountsDistinct` | src/stats.rs:218-228 | the number of non-empty buckets in the window is the number of distinct samples |
| `Stats.Stats.constructor` | src/stats.rs:33-42 | all buckets 0, total 0, `min` at its largest value and `max` at 0 |
| `Stats.Stats.Alloc` | src/stats.rs:30-43 | succeeds exactly when the array can exist, and then has room for `0..=max` |
| `Stats.Stats.Record` | src/stats.rs:53-100 | refuses exactly the samples at or above the limit without any change; else the new state is the recorded histogram, on the fast path as after both update loops, however many weak exchanges fail spuriously |
| `Stats.Stats.CasMinWeak` | src/stats.rs:74-82 | a weak compare-and-exchange on `min`: success only on the expected value, the actual one returned |
| `Stats.Stats.CasMaxWeak` | src/stats.rs:88-96 | the same on `max` |
| `Stats.Stats.HandDown` | src/stats.rs:127-135 | the inner loop: the samples of bucket `n`, which is still unchanged when it is read, are added to every bucket it reaches in steps of `expected` |
| `Stats.Stats.HandAllDown` | src/stats.rs:123-137 | the outer loop: after bucket `n` the array holds the chain sums up to `n` |
| `Stats.Stats.Correct` | src/stats.rs:118-138 | the in-place loops, reading the array they write, leave the closed form; intervals of 0 or less change nothing, doubled intervals that overflow the signed word included |
| `Stats.DoubledAsU64` | src/stats.rs:123 | the signed doubling overflows, but the cast to an unsigned word undoes it |
| `Stats.Stats.Mean` | src/stats.rs:141-153 | the sum of value times count over the window, modulo 2^128, divided by the count; without the modulus when the total fits in 64 bits |
| `Stats.Stats.SumOfValues` | src/stats.rs:146-151 | the scan of the mean, for every histogram |
| `Accumulators.ValueTotalFits` | src/stats.rs:148-151 | the 128-bit accumulator of the mean wraps at no bucket of the window when the samples can be counted in 64 bits |
| `Accumulators.MeanIsComputed` | src/stats.rs:141-153 | then the computed mean is the exact one |
| `Accumulators.WithinIsComputed` | src/stats.rs:175-192 | then the computed share is the exact one |
| `Accumulators.FirstReachingIsComputed` | src/stats.rs:204-213 | then the running totals of the percentile scan are exact |
| `Stats.Stats.Stdev` | src/stats.rs:156-172 | not negative and squaring to the sum of squared deviations over `count - 1`, where the root is one; 0 below two samples |
| `Stats.Stats.WithinStdev` | src/stats.rs:175-192 | the percentage of samples in the closed band, their number taken modulo 2^64, and exact when the total fits |
| `Stats.Stats.Percentile` | src/stats.rs:196-214 | the first bucket of the window at which the running total, modulo 2^64, reaches the rank, 0 if none does or nothing was recorded; exact when the total fits |
| `Stats.Stats.FirstReaching` | src/stats.rs:204-213 | the scan of the percentile, for every histogram and rank |
| `Stats.Stats.Popcount` | src/stats.rs:218-228 | the number of non-empty buckets of the window |
| `Correction.ChainCountsEchoes` | src/stats.rs:126-134 | the counts in buckets `m, m+e, m+2e, ...` add up to the number of echoes that land on `m` |
| `Correction.EchoCount` | src/stats.rs:129-134 | a sample has exactly one echo at each bucket above `e` that it reaches in steps of `e`, and itself |
| `Correction.EchoesClosedForm` | src/stats.rs:129-134 | a sample `x > e` makes `(x - 1) / e - 1` synthetic samples, the lowest at `e + 1 + (x - 1) % e` |
| `Correction.HandingDownStep` | src/stats.rs:130-134 | one iteration of the inner loop moves the array to the next partial state |
| `Correction.HandingDownEnd` | src/stats.rs:126-136 | when the inner loop is left, bucket `n` is fully redistributed |
| `Correction.CorrectCountsEchoes` | src/stats.rs:118-138 | after correcting the histogram of `s`, every bucket and the total count the echoes of `s` |
| `Correction.CorrectIsDownwardPass` | src/stats.rs:118-138 | an array is the corrected one if and only if it is the result of a single pass downwards, `final[m] = orig[m] + final[m + e]` |
| `Correction.CorrectIsExactIff` | src/stats.rs:118-138 | the corrected histogram holds the echoes with an exact window if and only if no echo falls below `min` |
| `Correction.MinimumDecides` | src/stats.rs:118-138 | a minimum of at most `e + 1` suffices, one above `2e` never does |
| `Correction.ScanSeesAllIff` | src/stats.rs:145-150 | the scans see as many samples as `count` says if and only if no echo falls below `min` |
| `Correction.CorrectionCanLoseSamples` | src/stats.rs:118-138 | the concrete failing case: count 9, mean below 12, median 0 for samples that are all at least 20 |
| `Correction.CorrectMerged` | src/stats.rs:118-138 | correction distributes over merging two histograms |
| `Correction.CountGrows` | src/stats.rs:132 | `count` grows, modulo 2^64, by `data[n] * ((n - 1) / e - 1)` summed over the buckets `n >= 2e`, and by nothing else |
| `Correction.GrowthBySample` | src/stats.rs:129-134 | the list of echoes is longer than that of the samples by `(x - 1) / e - 1` for every sample `x >= 2e` |
| `Exactness.ConditionOnBuckets` | src/stats.rs:118-138 | no echo falls below `min` if and only if every non-empty bucket `v > e` has `min <= e + 1 + (v - 1) % e` |
| `Exactness.MeanExactIff` | src/stats.rs:141-153 | the mean of the corrected histogram is that of the echoes if and only if no echo falls below `min`; otherwise it is too low |
| `Exactness.PercentilesExactIff` | src/stats.rs:196-214 | all percentiles below 100 are order statistics of the echoes if and only if no echo falls below `min` |
| `Moments.ScansAreStatistics` | src/stats.rs:141-192 | on a histogram of `s` the three scans return the mean, the variance and the band share of `s` |
| `Moments.MeanInRange` | src/stats.rs:141-153 | the mean lies between the smallest and the largest sample |
| `Moments.VarianceIdentity` | src/stats.rs:156-172 | `(n-1) var + n mean^2` is the sum of squares |
| `Moments.VarianceBound` | src/stats.rs:156-172 | `(n-1) var <= n (max - mean) (mean - min)` |
| `Moments.Chebyshev` | src/stats.rs:175-192 | at most `(n-1) / k^2` samples lie outside `k` deviations, none if the deviation is 0 |
| `Moments.TwoWithinOneDeviation` | src/stats.rs:175-192 | at least two samples lie within one deviation |
| `ConcurrentRecord.InvKept` | src/stats.rs:53-100 | every atomic step of every thread keeps the invariant: counters, modification orders, what each thread has read, and who still owes a bound |
| `ConcurrentRecord.CountersKept` | src/stats.rs:57-58 | buckets count the samples added and the total lags by the threads between the two increments |
| `ConcurrentRecord.OrdersKept` | src/stats.rs:71-98 | `min` only falls and `max` only rises, to recorded samples |
| `ConcurrentRecord.RunKeepsInv` | src/stats.rs:53-100 | the invariant holds in every reachable state |
| `ConcurrentRecord.BucketTotal` | src/stats.rs:57-58 | in every reachable state the bucket total is `count` plus the threads between the two increments |
| `ConcurrentRecord.NonEmptyInWindow` | src/stats.rs:62-98 | in every reachable state a non-empty bucket lies in `min..=max` or a thread carrying it has not finished its bounds |
| `ConcurrentRecord.QuiescentIsSequential` | src/stats.rs:53-100 | when all calls have returned, the histogram is that of the accepted samples and equals the one a single thread leaves |
| `ConcurrentRecord.MinLoopShrinks` | src/stats.rs:71-84 | genuine failures of the `min` loop are bounded by the distance to the sample, under any interference |
| `ConcurrentRecord.MaxLoopShrinks` | src/stats.rs:85-98 | the same for the `max` loop |
| `ConcurrentRecord.MinAttemptsBounded` | src/stats.rs:71-84 | all attempts of a thread in its `min` loop, the one that ends it included, number at most the distance to its sample plus its spurious failures |
| `ConcurrentRecord.MaxAttemptsBounded` | src/stats.rs:85-98 | the same for the `max` loop |
| `ConcurrentRecord.Finishes` | src/stats.rs:53-100 | from every reachable state, a thread that runs alone with fresh reads returns within eight steps |
| `Exchanges.StepBalances` | src/connection.rs:299-357 | every step of a stream, in each protocol, keeps every ledger: posted plus pending changes by what the step means |
| `Exchanges.TaskBalances` | src/h2.rs:150-196 | a task's books balance at every moment of its life |
| `Exchanges.ElapsedIsMicroseconds` | src/connection.rs:341-342 | the recorded latency is the duration in whole microseconds, rounded down, saturated at the largest word |
| `Exchanges.SizedHistogramRefusesNothing` | src/connection.rs:348-356 | with the histogram sized from the timeout, an exchange counts as a timeout if and only if `elapsedNs > timeoutMs * 1_000_000`; one that takes exactly the timeout is recorded |
| `Exchanges.OverdueIs` | src/h3.rs:220-226 | for any size: it counts as a timeout if it took longer or its whole microseconds are refused, else these are recorded |
| `Accounting.Conservation` | src/worker.rs:78-96 | the main law: for every run, worker and ledger, what is posted plus what the live streams owe is what the trace says |
| `Accounting.ConnBalances` | src/h3.rs:113-173 | a step of a connection task (dialling, failing, joining its streams, a stream's step) balances |
| `Places.PlaceOfConnection` | src/h2.rs:68-131 | on every run the last move of a connection decides its place: closed by a seen flag or a failed resolution, dialling when the flag was not seen, live from a successful dial on with streams that have performed exactly their own operations from a fresh start, and otherwise at its outer test |
| `Places.StepEnabledIff` | src/h3.rs:105-173 | a task may step if and only if the recorder sleeps and the step is one that the loop takes after its last move: what each protocol may do next, read off the trace |
| `Places.RecorderEnabledIff` | src/worker.rs:193-208 | the recorder swaps if and only if it sleeps and no stream is in the middle of being polled, and tests the flag right after a swap |
| `Journeys.SessionRuns` | src/h2.rs:104-131 | steps on the streams of a session are a run, in any interleaving, if and only if those of each stream are, and each stream ends where its own operations lead |
| `Journeys.VisitIsARun` | src/h3.rs:113-173 | every pass of the outer loop is a run from the outer test: a seen flag closes, a failed dial and a session whose streams have all been left lead back, any other session stays live |
| `Journeys.JourneyIsARun` | src/h2.rs:68-132 | every list of passes, dials, streams and replies the loop can go through is a run of the connection machine |
| `Journeys.RoundIsAVisit` | src/connection.rs:248-358 | each round of the HTTP/1.1 task is such a pass, with a single stream |
| `Accounting.RequestsConserved` | src/worker.rs:193-208 | values swapped out by the recorder plus the current counter = requests started = answered + write errors + read errors + in flight; once the worker has ended the counter is 0 and every request has been swapped out |
| `Accounting.RatesOfRun` | src/worker.rs:193-208 | in every reachable state the recorder of a worker has swapped out, interval by interval, the requests started in it, its recorded rates are `requests * 1000 / max(ms, 1)` rounded down, one for each interval that was not idle, and it has ended exactly when it read the flag as set |
| `Accounting.InFlightBounded` | src/h2.rs:104-131 | a worker never has more than connections times streams requests in flight, because a connection awaits its streams before it reconnects |
| `Accounting.TotalInFlightBounded` | src/main.rs:56 | with the integer split of connections over threads, at most `connections * streams` are in flight in all |
| `Accounting.SnapshotOfFinishedWorker` | src/worker.rs:93-96 | the snapshot of an ended worker agrees with the trace, except that `complete` lacks exactly the locals of dropped streams |
| `Accounting.FinishedIsFinal` | src/worker.rs:93-96 | an ended worker never changes again |
| `Accounting.TotalConservation` | src/main.rs:154-163 | the main law summed over all workers |
| `Accounting.FinalReport` | src/main.rs:154-163 | the totals when all workers have ended, with the remainder of dropped locals |
| `Accounting.TimeoutPartition` | src/connection.rs:348-356 | an ended worker's timeouts are its answers that took longer than the timeout, and its accepted samples are as many as its other answers |
| `Accounting.SamplePartition` | src/connection.rs:341-356 | value by value: the samples of `us` microseconds are the answers in time that took `us` whole microseconds |
| `Tasks.Counters.constructor` | src/connection.rs:37-46 | all counters start at 0 |
| `Tasks.BookAnswer` | src/connection.rs:339-356 | an answered HTTP/1.1 or HTTP/2 exchange, counter by counter: up to the timeout the loop goes on and the whole microseconds are recorded, or counted as a timeout if refused; beyond it one timeout, the flush of the local count and the end |
| `Tasks.Settle` | src/h2.rs:176-192 | the same against the books of the machine |
| `Tasks.BookHttp3Answer` | src/h3.rs:214-230 | an answered HTTP/3 exchange, counter by counter: beyond the timeout one timeout and no bytes, and the stream goes on |
| `Tasks.SettleHttp3` | src/h3.rs:214-230 | the same against the books of the machine |
| `Tasks.Fail` | src/h2.rs:159-174 | a failed request: one error, and the local count flushed |
| `Tasks.FlushCount` | src/h3.rs:232 | the flush on a clean exit |
| `Tasks.StartOne` | src/connection.rs:309 | every request is added to the rate counter as it starts |
| `Tasks.RunHttp1Requests` | src/connection.rs:298-357 | the request loop posts exactly what the replies say, and reports whether it was left by a `break` |
| `Tasks.RunHttp2Stream` | src/h2.rs:138-196 | the stream loop posts exactly what the replies say; only a stream dropped in mid-request keeps an unflushed count |
| `Tasks.RunHttp3Stream` | src/h3.rs:179-233 | the same for HTTP/3 |
| `Tasks.TurnLeads` | src/connection.rs:299-357 | one pass through a loop is the run of the machine made of its operations in program order |
| `Tasks.WholeIsARun` | src/h2.rs:150-196 | the whole effect of a loop is a run of the stream machine |
| `Tasks.WholeBalances` | src/h3.rs:193-233 | hence the loops conserve every ledger |
| `Loops.WholeEnds` | src/h2.rs:150-196 | read off the replies: a loop ends in the first turn that sees the flag, fails or, but for HTTP/3, takes longer than the timeout, and waits in the first whose reply never comes |
| `Loops.WholeComesTo` | src/h3.rs:193-233 | what a loop posts and keeps is exactly what the turns it takes say, for every ledger: requests, answers, errors, timeouts, samples by value, statuses from 400 on, bytes |
| `Loops.OnlyLoops` | src/connection.rs:299-357 | every run of the stream machine is the beginning of a run of the loop: the machine allows nothing else |
| `Rates.RateList` | src/worker.rs:198-202 | an idle interval records nothing, any other `requests * 1000 / max(ms, 1)` rounded down |
| `Rates.RatesAreQuotients` | src/worker.rs:193-208 | over any intervals: one such quotient for each busy one up to the first that saw the flag, and the busy intervals hold all requests swapped out |
| `Rates.RateIsFloor` | src/worker.rs:199-200 | a recorded rate is `requests * 1000 / max(ms, 1)` rounded down, saturated at the largest word |
| `Tasks.RunRateRecorder` | src/worker.rs:188-209 | with what was in the counter and what the tasks add to it during each interval: the recorder takes all of it out up to the first interval that saw the flag, leaves the counter at 0, and records one rate for each interval that was not idle |
| `Tasks.RecordRate` | src/worker.rs:198-202 | one interval: an idle one leaves the histogram, any other records `requests * 1000 / max(ms, 1)` rounded down |
| `Tasks.Sum` | src/connection.rs:63-75 | the loop adds up all snapshots field by field |
| `Tasks.SumOfWorkers` | src/main.rs:156-163 | which is the tally of all workers' books |
| `Connections.RunConnection` | src/connection.rs:248-358 | the connection task posts the connect errors and the books of every session it goes through, and loses only the local count of a session still open |
| `Connections.CourseReaches` | src/connection.rs:248-358 | a round is taken if and only if no earlier round and no earlier turn taken saw the flag and no earlier session is still open |
| `Connections.Reconnects` | src/connection.rs:311-353 | after a failed request or an answer beyond the timeout, the flag not seen, the next round is taken |
| `Connections.CourseBalances` | src/connection.rs:248-358 | over all connections of a task, what it posts and keeps is exactly what the rounds and turns taken say; each local count is posted once on every way out |
| `Connections.H3RequestResponse` | src/h3.rs:241-261 | send errors and receive errors told apart exactly; else the status and the sum of all body chunks |
| `Connections.BodyBytesAdd` | src/h3.rs:256-259 | the sum of the chunks is additive over concatenation and is the chunk itself for a single one |
| `Units.FormatUnits` | src/units.rs:16-29 | the amount shown, scaled back up once per promotion, is `n` at every iteration; it is below the threshold or the ladder is used up; the topmost unit is never reached |
| `Units.HalfEvenIsNearest` | src/units.rs:28 | printing with ties to even rounds to a nearest tick, which is all that is asked of the rounding |
| `Units.DisplayedIsRendered` | src/units.rs:16-29 | number and unit shown are together worth the recursive rendering of `n` |
| `Units.FormatBinary` | src/units.rs:32-34 | what the text is worth, and its unit |
| `Units.FormatMetric` | src/units.rs:38-40 | what the text is worth, and its unit |
| `Units.FormatTimeUs` | src/units.rs:44-51 | what the text is worth, and which of us, ms, s and m is shown for which number |
| `Units.FormatTimeS` | src/units.rs:53-55 | what the text is worth; s below 51 and m from there on, never h |
| `Units.RenderedError` | src/units.rs:16-29 | with two decimals: at most 0.005 off below the threshold, and at most 1/170 of the number from 0.85 on |
| `Units.FormatterErrors` | src/units.rs:32-51 | these bounds for the three two-decimal formatters |
| `Units.TimeSError` | src/units.rs:53-55 | whole seconds or minutes are off by half of one at most |
| `Units.RenderedMonotone` | src/units.rs:16-29 | a larger number is never shown as less, across all promotions of a ladder |
| `Units.LaddersMeet` | src/units.rs:44-51 | one second reads the same on both time ladders |
| `Units.FormattersMonotone` | src/units.rs:32-55 | all four formatters are monotone, the microseconds also across the switch of ladders |
| `Scanner.ScanUnits` | src/units.rs:78-95 | the loop with its checked multiplications returns what the ladder of units says |
| `Scanner.LadderIsTable` | src/units.rs:86-94 | the ladder of metric units, scanned in lower case, is the table of powers of 1000 |
| `Scanner.TruncationIsHarmless` | src/units.rs:107-108 | cutting the suffix off after two characters never changes the answer |
| `Scanner.MetricGrammar` | src/units.rs:59-110 | a text is scanned to `r` if and only if, trimmed, it is a number and at most one unit letter whose product `r` fits 64 bits |
| `Scanner.TimeGrammar` | src/units.rs:65-76 | the same for seconds, minutes and hours |
| `Scanner.ScanPrinted` | src/units.rs:59-110 | scanning the printing of a number with a unit, in either case and with white space around it, gives the product or, if it does not fit, nothing |
| `Text.TrimIs` | src/units.rs:99 | trimming takes all white space off both ends and nothing else |
| `Text.WhitespaceList` | src/units.rs:99 | the characters that are trimmed, one by one |
| `Text.DigitsAreValue` | src/units.rs:80 | the decimal printing of a number is a number of that value |
| `Url.AuthorityGrammar` | src/config.rs:444-461 | what an authority is read as: host and port, a missing host, or a port too large, each exactly when |
| `Url.UrlGrammar` | src/config.rs:430-462 | a URL is parsed to a target if and only if it is a scheme in any case, an authority that names the target, and nothing or a tail starting with a slash, question mark or number sign |
| `Url.Refusals` | src/config.rs:431-460 | when each error arises: no "://" at all, a first "://" after anything but http or https in any case, an authority without a host or with too large a port |
| `Url.HeaderText` | src/config.rs:95-101 | the header leaves the port out if and only if it is 80 for HTTP or 443 for HTTPS |
| `Url.PortLeftOut` | src/config.rs:464-469 | a URL without a port names 80 for HTTP and 443 for HTTPS |
| `Url.RoundTrip` | src/config.rs:95-101 | for every target and every tail: written with its Host header it is parsed back if and only if its host is not empty, ends no authority and cannot be taken for host and port |
| `Url.Reparse` | src/config.rs:430-469 | a parsed target survives another round unless its port is the default one and its host is port-like |
| `Url.ExplicitDefaultPortIsLost` | src/config.rs:95-101 | the concrete failing case |
| `Report.AllocLatency` | src/main.rs:42-43 | whenever the histogram can be allocated its size was not saturated and is `timeout * 1000 + 1` |
| `Report.AllocRates` | src/main.rs:44 | the histogram of rates has room for rates up to ten million |
| `Benchmark.CallsPosted` | src/connection.rs:354-356 | the samples in the books of a run are those of its calls of `record` that the histogram accepts |
| `Benchmark.InTimeTraced` | src/connection.rs:348-356 | the accepted samples a trace accounts for are the latencies of its answers in time |
| `Benchmark.RateCallsTraced` | src/worker.rs:197-202 | the calls of `record` for rates are one for each interval that was not idle, over all recorders |
| `Benchmark.Projects` | src/main.rs:42-44 | a run of the product, in which every call takes one atomic step at a time, is a run of the accounting and of each recording machine, with the calls the workers make and in their order |
| `Benchmark.EveryRunHappens` | src/worker.rs:78-96 | every run of the accounting machine is part of a run of the product in which all calls have returned |
| `Benchmark.LatencyOfRun` | src/main.rs:154-163 | end to end: when all workers have ended, whatever the interleaving of tasks and of the atomic steps of `record`, the histogram holds exactly the whole microseconds of the answers up to the timeout that fit it, and with the timeouts these are all finished exchanges |
| `Benchmark.RatesOfWholeRun` | src/worker.rs:188-209 | end to end: the histogram of 10_000_001 buckets then holds exactly the accepted rates, one for each interval, of each recorder, in which requests were started, each `requests * 1000 / max(ms, 1)` rounded down |
| `Report.IntervalFits` | src/main.rs:170-171 | there is an interval unless a connection finished no request on average, and it is the quotient rounded down twice |
| `Report.CorrectLatency` | src/main.rs:170-174 | with `i = runtime / (complete / connections)`: the histogram is corrected with `i` if the divisors are positive and `0 < i < 2^63`, and left unchanged in every other case |
| `Report.ExpectedFits` | src/main.rs:170-173 | the interval used is positive exactly then, and is the longest for which the average number of requests of a connection fits the run time |
| `Report.Summarize` | src/report.rs:52-76 | the printed figures are computed from the histogram by its methods, the deviation from the mean and the share from both, and the percentiles 50, 75, 90 and 99, whatever it holds |
| `Report.FiguresOfSamples` | src/report.rs:52-76 | on a histogram of `n` samples they are the largest one, the mean, the deviation, the share within one deviation, and the sorted samples of index `n/2`, `3n/4`, `9n/10` and `99n/100` |
| `Report.PrintedShareHoldsTwo` | src/report.rs:62-63 | the printed share covers at least two samples |
| `Report.ReportLatency` | src/main.rs:165-174 | correction and report, by cases on the interval `runtime / (complete / connections)`: if it is a positive signed word, the printed figures are the statistics of the echoes at that interval if and only if no echo falls below the recorded minimum, and the mean alone decides it; otherwise they are the statistics of the samples |

## Left out

- TLS, QUIC, ALPN probing, certificate checks and the hyper, h3, quinn and tokio libraries: their results are inputs.
- Building requests, parsing headers and the estimate of header bytes: the bytes counted for a response are an input.
- Command-line definitions, the layout of the printed report, protocol resolution and process exit.
- Clocks and sleeping: elapsed times are inputs; the waits between attempts have no effect on any counter.
- Rounding in floating-point arithmetic, infinities and NaN: reals are exact.
- Computing square roots: the root is a parameter, of which only its value at the variance matters, and that this value is not negative and squares to the variance.
- Overflow checks: sums of words wrap, as in a release build; with the checks of a debug build they would panic instead.
- The decimal digits of formatted numbers: a text is a number of ticks of its last decimal and a unit, under any rounding to a nearest tick.
- 64-bit wrap-around of the request, byte and error counters: the accounting uses unbounded numbers; only the histogram's counters wrap.
- Memory-model effects beyond coherence of each atomic: loads and failed exchanges may return any value not older than what the thread has seen.
- Coherence of the stop flag: a read may return the old value at any time after the flag has been set, also in a thread that has already read the new one; this only adds runs.
- The outer loops of the HTTP/2 and HTTP/3 connection tasks as imperative methods: their streams interleave, so they are steps of `Accounting`, tied to the loops by `Places` and `Journeys`; HTTP/1.1, whose task is sequential, is `Connections.RunConnection`.
- A worker whose runtime cannot be built or whose thread panics: `main` counts it as all zeros.
- A body length beyond 64 bits in `h3_request_response`: the sum is unbounded.
- Stats.Stats.Record: how often a weak exchange fails spuriously is a parameter, since nobody else writes in the sequential form; interference is the subject of `ConcurrentRecord`.
- Stats.Stats.HandDown: `correct` is one function in the source; its inner and outer loop are methods here so that each has a contract.
- Tasks.Settle: the identical bookkeeping of HTTP/1.1 and HTTP/2 after an answer is one method here.
- Tasks.RunRateRecorder: what the tasks add to the counter during an interval is given with the interval; that these are the requests they start is `Accounting.RatesOfRun`.
- Report.ReportLatency: the histogram is an object of the sequential class; that the concurrent one holds the same is `Benchmark.LatencyOfRun`.
