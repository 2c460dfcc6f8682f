# Verification of the event recorder

This project models the Lassie event recorder in Dafny and proves what it keeps
to, over all inputs, all runs and all interleavings. The recorder takes
retrieval events over HTTP in two forms: single events as they happen (v1), and
one summary per retrieval (v2). It stores them in Postgres and turns them into
metrics. Three parts of it hold state that is hard to get right, and they are
what the project is about.

* **Lifetimes of retrievals (v1).** `TempDataMap` keeps one mutable `TempData`
  per retrieval ID. Objects are recycled through a pool; success, an indexer
  failure or a one-minute timer ends a lifetime. `Lifetime` gives the abstract
  meaning (a fold over the events of the lifetime, with a reading of every field
  that does not mention the fold). `Tempdata` and `MetricsHandlers` are the
  classes, proved to refine the plain map of lifetimes of `Handlers`.
  `EventReports` says what each event makes every instrument get; `Runs`,
  `Firsts`, `Durations`, `Outcomes` and `RunReports` prove theorems over whole
  runs of that map, `Timers` over runs with timers and a clock. `PoolProtocol`, `PoolEntries`,
  `StaleTimers`, `DirtyObjects` and `CandidateCounting` take the same code apart
  into its atomic steps, for any number of threads.
* **The provider map.** `SPMap` is a cache in front of one worker, with a queue
  of ten and a one-shot response channel for every call. `SPMapProtocol` is the
  state machine over all interleavings, `SPMaps` the class.
* **Summaries (v2).** `Aggregate` is the loop over a Go map in arbitrary order,
  `CallReports` what a summary makes every instrument get,
  `FanOut` the goroutines that fill that map and the batch of rows under a lock,
  `Events` what validation lets through, `Tables` the two tables and their keys,
  `Recorder` the two record methods that put all this together, `Batches` the
  batches of calls that run at the same time.

`GoTime` holds Go's integer widths and times, `Instruments` the counters and
histograms as one sequence of emissions, `ErrorKinds` the classification of
error messages, `Sequences` one helper.

## What is assumed

* In `MetricsHandlers`, `Runs`, `RunReports`, `Timers`, `Firsts`, `Durations`,
  `Outcomes` and `Recorder` each v1 handler call is one atomic step, and so is a timer going
  off. The code does not ensure this. Without the assumption, `PoolProtocol` shows
  what still holds (every object has one owner), and `PoolEntries`, `StaleTimers`
  and `DirtyObjects` say exactly when the rest does: when Delete finds the entry,
  when there is a timer to stop, when no stale timer survives, and when recycled
  objects are clean.
* A timer may go off at any time. Only in `Timers` is the clock ideal: a timer
  does not go off early, and time does not pass one that is due.
* What the environment decides is a parameter: the clock, the order in which a
  Go map is visited, the order in which goroutines take a lock, the answers of
  the SP map and of heyfil, which pooled objects are dropped, whether a batch
  reaches the database, and the parsers of durations, CIDs, peer IDs and uuids.
* `CollectAttempts` runs the goroutines of one event one after the other, in the
  order in which they took the lock. `FanOut.ScheduleIndependence` proves that
  every interleaving of their real steps amounts to such an order.
* A batch is one transaction, and the tables are only ever changed by these
  batches.
* Conversions of floating-point numbers to integers truncate toward zero; out of
  range they do what amd64 does.
* The bitswap identifier is `Bitswap`, and the protocol codes are the names of
  the multicodec table. The Lassie and multicodec packages are not part of this
  model.

## Where the code and its descriptions differ

The model follows the code.

* The failed-retrievals histogram is described as the number of failed attempts
  per request (`metrics/metrics.go:366-367`). `failureCount += 0`
  (`metrics/events.go:202`), and no handler calls `RecordFailure`, so it only ever
  records 0: `Runs.FailedHistogramIsAlwaysZero`. `Runs.V1FailedRetrievalsRecorded`
  and `Aggregate.FailedRetrievalsRecorded` say when that is the right number.
* The total-request counter is described as distinct retrievals
  (`metrics/metrics.go:145`), but rises on every v1 indexer start and on every v2
  event, also on one sent again, and not for a retrieval of which only other v1
  events arrive: `Outcomes.TotalRequestsAreDistinct` says exactly when the two
  agree, and `Outcomes.EachCountedOnce` when each retrieval is counted once.
* "First" is decided by comparing a field with 0, so an amount that truncates to
  0, a total that wraps around to 0, or a time in the first microsecond of 1970,
  leaves the next event first again: `Firsts.AtMostOneFirst`,
  `CandidateCounting.AtMostOneFirst`.
* The protocol label of the time to first byte depends on the visiting order when
  two protocols tie: `Aggregate.LabelOrderIndependence`.
* A `Get` that misses the cache after `Close` panics:
  `SPMapProtocol.PanicsExactlyOnMisuse`.
* `HandleSuccessEvent` follows the result of `Delete` and `RecordFinality` follows
  the timer without a check; both can be nil when handlers and timers overlap:
  `PoolEntries.DeleteFinds`, `PoolEntries.StopFindsATimer`.
* A pooled object is meant to be zero, but a handler can still write to one whose
  entry is gone: `DirtyObjects.ObjectsStayClean`.
* An event batch without its attempt batch cannot be repaired by sending it
  again: `Recorder.HalfFailureIsFinal`.

## Model

| member | source | states |
|---|---|---|
| `GoTime.RoundTrip` | metrics/tempdata/tempdata.go:25-31 | A start time kept as microseconds in a uint64 comes back as its floor to a microsecond, before 1970 too, if and only if its microsecond count fits in 64 bits |
| `GoTime.TimestampsRoundTrip` | metrics/tempdata/tempdata.go:25-31 | Every time that a JSON timestamp (RFC 3339, years 0 to 9999, any zone offset) can carry survives that round trip |
| `GoTime.WrapTwice` | metrics/tempdata/tempdata.go:30 | The int64 to uint64 to int64 conversions lose nothing; a count survives exactly when it is in the 64-bit range |
| `GoTime.StoredIsZero` | metrics/tempdata/tempdata.go:26 | A stored time looks like an unset field exactly for times in the first microsecond of 1970 |
| `GoTime.DurationError` | metrics/events.go:83 | A duration measured from a stored time is never too short and at most 999 ns too long, saturation of Sub included |
| `GoTime.SubMeans` | metrics/events.go:83 | A difference of times is exact where it fits in 64 bits and the nearest end of the range where it does not |
| `Lifetime.FoldMeans` | metrics/tempdata/tempdata.go:13-68 | For every sequence of Record* calls each field is what a direct reading of the sequence says: earliest nonzero start and first byte, totals modulo 2^32, whether an attempt was noted, time of the last candidates event that met a total of 0 |
| `Lifetime.FirstReturned` | metrics/tempdata/tempdata.go:25-68 | The compare-and-swap of a Record* call succeeds if and only if the history of the lifetime makes it the first of its kind |
| `Lifetime.MeaningIsUnique` | metrics/tempdata/tempdata.go:13-23 | That reading determines every field: two records with the same history are equal |
| `Lifetime.FinalsMean` | metrics/tempdata/tempdata.go:85-96 | Each final value is that of its own kind of event: totals of candidates, filtered ones and failures modulo 2^32, whether an attempt was noted, and the stored times |
| `Tempdata.TempData.RecordStartTime` | metrics/tempdata/tempdata.go:25-27 | The object stays the fold of its history, extended by this start; the result says whether the history makes it first |
| `Tempdata.TempData.StartTime` | metrics/tempdata/tempdata.go:29-31 | The time restored from the start that the history folds to |
| `Tempdata.TempData.RecordIndexerCandidates` | metrics/tempdata/tempdata.go:33-40 | Same, with the amount added modulo 2^32 and the first-result time stored on success |
| `Tempdata.TempData.RecordIndexerFilteredCandidates` | metrics/tempdata/tempdata.go:42-48 | Same for filtered candidates |
| `Tempdata.TempData.RecordBitswapAttempt` | metrics/tempdata/tempdata.go:50-52 | Same for the first bitswap attempt |
| `Tempdata.TempData.RecordGraphsyncAttempt` | metrics/tempdata/tempdata.go:53-55 | Same for the first graphsync attempt |
| `Tempdata.TempData.RecordTimeToFirstByte` | metrics/tempdata/tempdata.go:57-59 | Same for the first byte |
| `Tempdata.TempData.RecordFailure` | metrics/tempdata/tempdata.go:61-68 | Same for failures, although no handler calls it |
| `Tempdata.TempData.RecordFinality` | metrics/tempdata/tempdata.go:70-72 | The timer is stopped; it has to be there |
| `Tempdata.TempData.FinalValuesOf` | metrics/tempdata/tempdata.go:85-96 | The final values are those of the fold of the history |
| `Tempdata.TempData.ZeroOut` | metrics/tempdata/tempdata.go:98-107 | The object is again the fold of the empty history |
| `Tempdata.TempDataMap.PoolGet` | metrics/tempdata/tempdata.go:109-113 | Whatever the pool dropped or kept, the object handed out is zero and belongs to no key and no longer to the pool |
| `Tempdata.TempDataMap.PoolPut` | metrics/tempdata/tempdata.go:127 | Only a zero object under no key goes into the pool, and then it is there |
| `Tempdata.TempDataMap.GetOrCreate` | metrics/tempdata/tempdata.go:123-134 | The map of lifetimes is unchanged, or gains an empty lifetime due in one minute; timers and entries stay in bijection |
| `Tempdata.TempDataMap.Delete` | metrics/tempdata/tempdata.go:136-146 | Exactly the lifetime of the key is removed, its final values are handed out, and its object is in the pool, as zero; nil and nothing else if there is no entry |
| `Tempdata.TempDataMap.Finish` | metrics/events.go:126-128 | RecordFinality then Delete on a live entry: the timer is stopped, the entry removed, the result is not nil |
| `Tempdata.TempDataMap.Fire` | metrics/tempdata/tempdata.go:129-131 | A timer that goes off removes the entry it was armed for, at that entry's deadline, and no other |
| `MetricsHandlers.Metrics.HandleStartedEvent` | metrics/events.go:49-66 | Over recycled objects the handler does what it does over a plain map from ID to the events of the lifetime: same entries, same instrument calls in the same order |
| `MetricsHandlers.Metrics.HandleCandidatesFoundEvent` | metrics/events.go:68-86 | Same refinement, with the early returns on malformed details and counts that are not positive |
| `MetricsHandlers.Metrics.HandleCandidatesFilteredEvent` | metrics/events.go:88-105 | Same refinement |
| `MetricsHandlers.Metrics.HandleTimeToFirstByteEvent` | metrics/events.go:107-113 | Same refinement |
| `MetricsHandlers.Metrics.HandleFailureEvent` | metrics/events.go:21-47 | Same refinement; an indexer failure ends the lifetime, a retrieval failure is classified and counted |
| `MetricsHandlers.Metrics.HandleSuccessEvent` | metrics/events.go:115-146 | Same refinement; the lifetime ends and its final values are reported, as EventReports.SuccessReports spells out |
| `MetricsHandlers.Metrics.ReportSuccess` | metrics/events.go:129-145 | The counters and histograms of a success, branch by branch, come to the report of the final values that EventReports.SuccessReports spells out |
| `MetricsHandlers.Metrics.FinishEntry` | metrics/events.go:126-128 | GetOrCreate, RecordFinality, Delete always find a timer and an entry, and give the final values of the whole lifetime |
| `MetricsHandlers.Metrics.TimerFires` | metrics/tempdata/tempdata.go:129-131 | An armed timer belongs to a live entry with that deadline; firing removes that entry and emits nothing |
| `MetricsHandlers.Metrics.HandleAggregatedEvent` | metrics/events.go:156-246 | For any visiting order of the attempts the instrument calls are those whose laws are proved below, instrument by instrument in CallReports |
| `MetricsHandlers.Metrics.VisitAttempts` | metrics/events.go:175-208 | The loop emits, and leaves in lowestTTFB and its label, what the fold over the visiting order says |
| `MetricsHandlers.Metrics.AttemptMade` | metrics/events.go:177-188 | The branches over the protocol of an attempt come to the specified attempt counter, or none |
| `MetricsHandlers.Metrics.AttemptFailed` | metrics/events.go:190-201 | The branches over a failed attempt come to the specified failure and error counters |
| `MetricsHandlers.Metrics.ReportCall` | metrics/events.go:210-245 | The branches after the loop come, in order, to the emissions that CallReports.HistogramsOfCall and CountersOfCall spell out |
| `Handlers.HandleIsLocal` | metrics/events.go:21-146 | A handler's emissions and its entry afterwards depend only on its own entry before; entries of other IDs are untouched |
| `Handlers.HandleDomain` | metrics/events.go:21-146 | Which handlers create an entry, which end one, and that no other entry comes or goes |
| `Handlers.Uint32OfFloat` | metrics/events.go:81 | A candidate count loses its fraction and, within 64 bits, all but its low 32 bits; beyond that it is 0 |
| `Handlers.Int64OfFloat` | metrics/events.go:138 | A received size loses its fraction, toward zero; out of range it is the lowest 64-bit number |
| `EventReports.StartedReports` | metrics/events.go:49-66 | A start event of each phase and provider: which counter it raises, with which labels, under which condition on the history of the entry, and what the entry remembers |
| `EventReports.CandidatesFoundReports` | metrics/events.go:68-86 | A positive count, truncated, is remembered; the counter and the histogram get exactly one value each if the count so far is 0 modulo 2^32, else nothing |
| `EventReports.CandidatesFilteredReports` | metrics/events.go:88-105 | The same for filtered candidates, which have no histogram of times |
| `EventReports.FirstByteReports` | metrics/events.go:107-113 | The counter and the histogram get exactly one value each, under the label of the protocol, if no first byte counted before, else nothing |
| `EventReports.FailedReports` | metrics/events.go:21-47 | By phase and provider: an indexer failure raises its counter and ends the entry; a retrieval failure raises the provider's failure counter exactly if it is not bitswap, and one error counter under the protocol's label; other phases do nothing |
| `EventReports.SuccessReports` | metrics/events.go:115-146 | On any entry: the two success counters, and each of six histograms exactly once: candidates and filtered candidates each with the total of its own events modulo 2^32, the truncated size, the time since the start, the bandwidth over the time since the first byte, the failures |
| `EventReports.OthersReportNothing` | eventrecorder/recorder.go:119-132 | Events of other names, and those whose details lack what the handler of their name looks for, raise nothing and leave every entry alone |
| `RunReports.HistoryTells` | metrics/tempdata/tempdata.go:115-146 | At any point of any run an entry holds what the steps told about its ID since it last expired, failed or succeeded: sums of candidates, first start, first byte |
| `RunReports.SuccessAfterRun` | metrics/events.go:115-146 | A success after any run records the sums, modulo 2^32, of all candidates found and filtered since the last entry went, a duration from the first start since then and a bandwidth over the time since the first byte, to within 999 ns |
| `Durations.DurationsRunFromTheFirstStart` | metrics/events.go:83 | Every duration a v1 handler records, on any entry, runs from the first counted start of that lifetime to the event, too long by 0 to 999 ns; without a start it runs from 1970 |
| `Durations.BandwidthRunsFromTheFirstByte` | metrics/events.go:139-140 | The bandwidth divides the reported size by the time since the first byte of the lifetime, measured likewise |
| `Runs.Isolation` | metrics/tempdata/tempdata.go:115-146 | Over any run, erasing all steps about other IDs leaves every output and the entry of this ID unchanged, despite shared objects |
| `Runs.StepConservation` | metrics/events.go:31-35 | One step: entries before, plus a creation, equal entries after plus success, indexer failure or expiry |
| `Runs.LifetimeConservation` | metrics/events.go:126-129 | Over any run: entries created = live + v1 successes + indexer failures + expirations (v2 failures without attempts, which share a counter, accounted for) |
| `Runs.DeadlineIsOneMinuteAfterBirth` | metrics/tempdata/tempdata.go:129-131 | An entry exists exactly since the step that created it, its deadline is that step plus 60,000,000,000 ns, and no later event moves it |
| `Timers.RunIsRun` | metrics/tempdata/tempdata.go:129-131 | With timers as state of their own, the entries after any run are those of the run of the handlers and expirations it consists of |
| `Timers.TimersMatchEntries` | metrics/tempdata/tempdata.go:70-72 | In every reachable state each entry has an armed timer that carries its ID, and each armed timer is that of the entry it names |
| `Timers.NoEntryOutlivesItsDeadline` | metrics/tempdata/tempdata.go:11 | If time does not pass an armed timer that is due, then no entry is ever past its deadline or older than 60,000,000,000 ns; nothing is assumed about entries |
| `Timers.FiresOnTime` | metrics/tempdata/tempdata.go:129-131 | A timer goes off at its deadline exactly, and deletes exactly the entry it was armed for |
| `Timers.LivesExactlyUntilItsDeadline` | metrics/tempdata/tempdata.go:129-131 | An entry that no handler ends is there at every time before its deadline, which no event moves, and gone at every time after it |
| `Timers.TimeCanPass` | metrics/tempdata/tempdata.go:129-131 | From every state of such a run time can reach any later point, with nothing but timers going off on the way |
| `Runs.ErrorConservationOverRuns` | metrics/events.go:189-203 | Over any mix of v1 and v2 steps the twenty error counters add up to v2 attempts with an error plus v1 retrieval failures with a text, in total and under each protocol label |
| `Runs.FailedHistogramIsAlwaysZero` | metrics/events.go:145 | Over any run the failed-retrievals histogram records nothing but 0 |
| `Runs.V1FailedRetrievalsRecorded` | metrics/events.go:145 | After any run the value a v1 success records is the number of retrieval failures of that ID, with or without an error text, if and only if there were none |
| `Runs.V1FailureIsNotRecorded` | metrics/events.go:36-46 | Whatever ran before, a success after a failed retrieval of the same ID records 0 |
| `Outcomes.SuccessConservation` | metrics/events.go:223-234 | Over any run the success counter equals the sum of the three per-protocol success counters plus the v2 successes under a protocol that has none |
| `Outcomes.RequestsCounted` | metrics/events.go:52-54 | The total-request counter rises once for every v1 indexer start and every v2 call, whichever retrieval it reports |
| `Outcomes.TotalRequestsAreDistinct` | metrics/metrics.go:144-145 | Over any mix of v1 and v2 steps it is the number of distinct retrievals, as described, if and only if there are as many repeated reports as retrievals known by other v1 events alone; with those added it is never too small, and right if and only if no retrieval is reported twice |
| `Outcomes.EachCountedOnce` | metrics/metrics.go:144-145 | Each retrieval of a run is counted exactly once if and only if none is reported twice and none goes unreported |
| `Outcomes.OneRetrievalCountedTwice` | metrics/metrics.go:144-145 | Any two reports of one retrieval are counted as two |
| `Outcomes.OneRetrievalNotCounted` | metrics/events.go:52-54 | A retrieval known by any v1 event other than an indexer start, and by nothing else, is not counted |
| `Firsts.OneFirstPerLifetime` | metrics/tempdata/tempdata.go:33-59 | With nonzero times, amounts of at least 1 and totals below 2^32, exactly one event of each kind that occurs is told it is first |
| `Firsts.AtMostOneFirst` | metrics/tempdata/tempdata.go:33-59 | In any lifetime at most one event of a kind is told so if and only if no later one meets a total of 0 modulo 2^32, or a time that has stayed 0 |
| `Firsts.AtMostOneFirstInBounds` | metrics/tempdata/tempdata.go:33-59 | While the totals stay below 2^32 that is so if and only if the earliest of the kind does not leave its field 0 with others to follow |
| `Firsts.WrappedCountIsFirstTwice` | metrics/tempdata/tempdata.go:38 | Three counts of which the first two wrap around to 0: the third is first again |
| `Firsts.ZeroAmountIsFirstTwice` | metrics/events.go:81 | A count of 0.5 truncates to 0 and makes the next count first as well |
| `Firsts.FirstCountersBoundedByEntries` | metrics/events.go:49-113 | Over any such v1 run each of the five "first" counters rises at most once per entry created |
| `PoolProtocol.SingleOwner` | metrics/tempdata/tempdata.go:123-146 | Under every interleaving of sub-operation steps each object is in exactly one of: the pool, one key, one GetOrCreate or Delete under way, or dropped by the pool |
| `PoolProtocol.NeverSharedNorPutBackTwice` | metrics/tempdata/tempdata.go:127 | So no object serves two IDs and none is put back while pooled or in use |
| `PoolProtocol.OnlyLateWritesDirtyThePool` | metrics/tempdata/tempdata.go:141-142 | A pooled object that is not zero has had a Record* call after its entry was removed |
| `PoolProtocol.PoolStaysZero` | metrics/tempdata/tempdata.go:98-107 | Without such a late call every pooled object, and every object about to become an entry, is zero |
| `PoolProtocol.LateWriteCanReachThePool` | metrics/tempdata/tempdata.go:136-146 | A late call can leave any data in a pooled object |
| `DirtyObjects.ObjectsStayClean` | metrics/tempdata/tempdata.go:98-142 | In every interleaving all objects hold at every time what their owners may expect (zero in the pool and when taken from it, as zero as zeroOut has got) if and only if no Record* call leaves other data there |
| `DirtyObjects.WhatSpoils` | metrics/tempdata/tempdata.go:98-142 | Which calls do: not one whose entry is there or whose object is under a key again; one on a pooled or just taken object exactly if it leaves it nonzero; one on an object being zeroed exactly if a field that is done does not stay 0 |
| `DirtyObjects.HarmlessRunsPoolZero` | metrics/tempdata/tempdata.go:141-142 | Without such calls every pooled object, and every object about to become an entry, is zero, whatever late calls there are |
| `PoolEntries.EntryExists` | metrics/tempdata/tempdata.go:125-137 | Under every interleaving a key has an entry if and only if the last operation on it was a LoadOrStore |
| `PoolEntries.HandleHasItsEntry` | metrics/tempdata/tempdata.go:125-137 | A handle still has the entry that its GetOrCreate returned if and only if no LoadAndDelete on that key has run since |
| `PoolEntries.DeleteFinds` | metrics/events.go:126-128 | A handler's Delete returns nil if and only if the last operation on its key was another LoadAndDelete; it removes its own entry if none has run since its GetOrCreate, else a later one |
| `PoolEntries.DeleteCanFindNothing` | metrics/events.go:126-128 | A run in which the timer goes off between GetOrCreate and Delete, and Delete returns nil |
| `PoolEntries.DeleteCanFindALaterEntry` | metrics/tempdata/tempdata.go:136-142 | A run in which the later entry has the very same object, recycled under the same key |
| `PoolEntries.StopFindsATimer` | metrics/tempdata/tempdata.go:70-72 | RecordFinality follows a nil timer if and only if no timer was ever set on the object; then some GetOrCreate that stored it is about to set one |
| `PoolEntries.CrashesExactlyOnNil` | metrics/tempdata/tempdata.go:70-72 | A run panics if and only if some RecordFinality in it ran on such an object |
| `PoolEntries.TimerCanBeMissing` | metrics/tempdata/tempdata.go:125-130 | A run in which a second caller gets the entry before its timer is set, and RecordFinality panics |
| `StaleTimers.NoStaleTimers` | metrics/tempdata/tempdata.go:123-146 | There is no stale timer at any time of a run if and only if every timer is armed while the entry it is for is there, none is stored over an armed one, and every entry that is deleted has had its timer stopped or gone off; arming a timer and storing it are two steps |
| `StaleTimers.StaleTimerCanSurvive` | metrics/tempdata/tempdata.go:129-131 | A run in which a timer that is set late survives the end of its entry and is armed for the next entry of that ID |
| `CandidateCounting.NoAmountIsLost` | metrics/tempdata/tempdata.go:33-40 | For any number of concurrent calls in any interleaving of swap, store and add, the settled count is the sum of the amounts modulo 2^32 |
| `CandidateCounting.FirstMeansCountWasZero` | metrics/tempdata/tempdata.go:34 | A call returns first only if the count was 0 modulo 2^32 when its amount got in |
| `CandidateCounting.ExactlyOneFirst` | metrics/tempdata/tempdata.go:33-40 | On a fresh entry, with amounts of at least 1 and a sum below 2^32, exactly one call returns first, and the stored time is its own |
| `CandidateCounting.AtMostOneFirst` | metrics/tempdata/tempdata.go:33-40 | Whatever the amounts, some interleaving on a fresh entry lets two calls return first if and only if some of the amounts, but not all, add up to 0 modulo 2^32 |
| `CandidateCounting.AtMostOneFirstInBounds` | metrics/tempdata/tempdata.go:33-40 | With a sum below 2^32 no interleaving does if and only if no amount is 0 or there is only one call |
| `CandidateCounting.ExactlyOneFirstUnlessWrapped` | metrics/tempdata/tempdata.go:33-40 | If no such sum wraps, every interleaving of all the calls ends with exactly one first call, and the stored time is its own |
| `SPMapProtocol.StepKeepsInv` | spmap/spmap.go:112-152 | Every step of any Get, of the worker, of a reader, an eviction or Close keeps the invariant of the whole map |
| `SPMapProtocol.ResponseChannelsAreSafe` | spmap/spmap.go:112-152 | No response channel is sent to or closed after closing, none carries more than one value, a send never blocks, the queue never exceeds ten |
| `SPMapProtocol.AcceptedBelowTen` | spmap/spmap.go:145-151 | A call that missed the cache is accepted by the open queue if and only if fewer than 10 works are queued; otherwise its channel is closed next, empty |
| `SPMapProtocol.SingleHolder` | spmap/spmap.go:129-152 | A response channel is with its Get, in the queue, with the worker, or closed: exactly one of these |
| `SPMapProtocol.CacheAgreement` | spmap/spmap.go:75-91 | Whatever is evicted, a cached entry, empty ones included, is the latest completed result for its peer, and a hit answers with it |
| `SPMapProtocol.HitsDeliverTheCachedValue` | spmap/spmap.go:130-151 | A call answered from the cache gets a closed channel with the head of the latest result for its peer when it looked; a rejected one gets a closed empty channel |
| `SPMapProtocol.CompletedCallsGetTheirReply` | spmap/spmap.go:113-120 | The k-th completed call gets a closed channel with the head of the k-th query result, which is for its own peer |
| `SPMapProtocol.DeliveredValuesAreOwn` | spmap/spmap.go:117-119 | Every value delivered is the head of a nonempty reply for the caller's own peer |
| `SPMapProtocol.RankFallsWithCompletions` | spmap/spmap.go:112-123 | The rank of an accepted call is at most 11, falls by one with every completion and with nothing else, and is 0 exactly when its channel is closed |
| `SPMapProtocol.BoundedWait` | spmap/spmap.go:145-147 | Over any continuation, rank-many completions (at most eleven) answer an accepted call: its channel is closed and carries the head of its own reply; calls complete in the order of acceptance, also after Close |
| `SPMapProtocol.WorkerCanProceed` | spmap/spmap.go:112-123 | While work is left the worker can always take its next step, also after Close |
| `SPMapProtocol.PanicsExactlyOnMisuse` | spmap/spmap.go:125-127 | A run panics if and only if a Get reached its select after Close, or Close was called twice |
| `SPMaps.SPMap.Set` | spmap/spmap.go:86-91 | The value is stored and other entries keep theirs; one is evicted exactly if the entry is new and 10,000 are there |
| `SPMaps.SPMap.Get` | spmap/spmap.go:129-152 | A hit is a closed channel with the head of the entry, a miss is queued, a full queue gives a closed empty channel; it panics exactly on a miss after Close |
| `SPMaps.SPMap.Close` | spmap/spmap.go:125-127 | The queue is closed; a second Close panics |
| `SPMaps.SPMap.Answer` | spmap/spmap.go:113-120 | The oldest work is answered with the head of its reply and the reply is cached |
| `SPMaps.SPMap.Run` | spmap/spmap.go:112-123 | After Close the worker drains the queue: each call gets its own reply, and the cache ends with the latest replies |
| `ErrorKinds.Search` | metrics/events.go:276 | A search from the left finds the text if and only if it occurs |
| `ErrorKinds.GetMatchingErrorMetric` | metrics/events.go:248-282 | The earliest row of the table that occurs in the message is returned, none exactly when no row occurs |
| `ErrorKinds.KindOfEveryMessage` | metrics/events.go:248-282 | The counter of every message, with the twenty texts written out: that of the first text in the list that occurs in it, else the counter of other errors |
| `ErrorKinds.KindIsFirstMatch` | metrics/events.go:275-279 | A kind is chosen if and only if one of its rows is the earliest that occurs |
| `ErrorKinds.ContainsTransitive` | metrics/events.go:276 | Containment of texts is transitive |
| `ErrorKinds.GenericHttpFailure` | metrics/events.go:265-267 | The generic HTTP counter gets exactly the messages with the generic text and none of the earlier ones, so neither 404 nor 410, although both bring the generic text along |
| `ErrorKinds.NotFoundBeforeGone` | metrics/events.go:265-266 | A message with both codes and no earlier text counts as 404 |
| `Aggregate.EmissionsOfLoop` | metrics/events.go:175-203 | Each counter increment occurs in the loop once for every attempt that causes it |
| `Aggregate.OrderIndependence` | metrics/events.go:175-208 | For any two visiting orders the increments are the same multiset and the lowest time is the same |
| `Aggregate.LoopFindsLowest` | metrics/events.go:204-207 | The lowest time is the minimum nonzero duration, negative ones included, or 0 if there is none; the label is the protocol of some attempt that reaches it |
| `Aggregate.LabelOrderIndependence` | metrics/events.go:204-207 | The label is the same for all orders if and only if no two protocols tie for the minimum |
| `Aggregate.FirstToReachWins` | metrics/events.go:204-207 | Among attempts that reach the minimum the one visited first gives the label |
| `Aggregate.AttemptConservation` | metrics/events.go:177-188 | The attempt counters rise by the number of attempts with a recognised protocol |
| `Aggregate.ErrorConservation` | metrics/events.go:189-203 | The error counters rise by the number of attempts with an error, in total and per protocol label |
| `Aggregate.FailedRetrievalsRecorded` | metrics/events.go:242 | The recorded number of failed retrievals is 0; it is the true number if and only if no attempt failed |
| `Aggregate.FailedAttemptIsNotRecorded` | metrics/events.go:202 | Every successful call with a failed attempt records 0 all the same |
| `CallReports.HistogramsOfCall` | metrics/events.go:210-243 | Over the whole call each of the eight histograms gets at most one value, exactly if its condition holds, from its own argument and under its own label; the label of the time to first byte is the protocol of a fastest attempt |
| `CallReports.CountersOfCall` | metrics/events.go:171-245 | Over the whole call each counter outside the loop gets exactly one increment if its condition holds, with the labels of that counter, else none |
| `CallReports.AttemptsOfCall` | metrics/events.go:175-203 | Each increment of an attempt, failure or error counter occurs once for every attempt that calls for it, by its protocol code, its key and its error text, and no other does |
| `CallReports.NameOf` | metrics/events.go:291-302 | The three transport codes, written out, have the names bitswap, graphsync and http; any other code stands for itself |
| `Events.ValidateBatch` | eventrecorder/event.go:111-121 | A v1 batch passes if and only if it is nonempty and every event passes; otherwise the complaint is that of the first bad event |
| `Events.PassesValidation` | eventrecorder/event.go:51-91 | An event passes if and only if it has its IDs, a parsable CID, one of the three phases, a known name, and times that are set and at most a day ahead |
| `Events.ComplaintIsFirstFault` | eventrecorder/event.go:51-91 | Each complaint is made only about its own field, missing or at fault, when every field checked before it is in order |
| `Events.ValidateAggregate` | eventrecorder/event.go:152-189 | Whatever order the attempts are looked at, an event passes if and only if it is acceptable; the complaint is the first about its fields, else that about the first bad attempt in that order |
| `Events.FieldComplaintIsFirstFault` | eventrecorder/event.go:152-189 | The same for the fields of an aggregate event, and which complaint a bad attempt gets |
| `Events.ValidateAggregateBatch` | eventrecorder/event.go:195-205 | A v2 batch passes if and only if it is nonempty and every event is acceptable; otherwise the complaint is one about the first bad event |
| `Events.AcceptedEventsAreSafe` | eventrecorder/recorder.go:154-161 | For an event that passed, the recorder follows no nil pointer and drops no parse error |
| `FanOut.MutualExclusion` | eventrecorder/recorder.go:231-232 | No two goroutines are inside the critical section at once |
| `FanOut.NoDeadlock` | eventrecorder/recorder.go:220-272 | Until all goroutines have finished, one of them can take its next step |
| `FanOut.ScheduleIndependence` | eventrecorder/recorder.go:217-272 | For every interleaving, once all have finished the attempts map is the pointwise image of the attempts, each with the SP ID that its own goroutine was told, and each attempt is queued once, with that same ID, after the rows of earlier events |
| `FanOut.AttemptAsTold` | eventrecorder/recorder.go:222-264 | For every interleaving the map ends with every field of every attempt; its SP ID is what its goroutine was told if the key is a peer ID that parses, and empty for Bitswap, an empty key or one that does not parse |
| `FanOut.RowAsTold` | eventrecorder/recorder.go:222-264 | The same for every field of every queued row |
| `FanOut.SameAnswersSameOutcome` | eventrecorder/recorder.go:217-272 | Two schedules in which every goroutine is told the same end with the same map and the same rows, in some order |
| `Tables.EventsAccepted` | schema.sql:14 | A batch of events goes through if and only if its IDs are uuids, new to the table and distinct |
| `Tables.EventsInserted` | eventrecorder/recorder.go:316-321 | An accepted batch leaves the old rows, the new ones under their IDs and nothing else |
| `Tables.AttemptsAccepted` | schema.sql:42 | A batch of attempts goes through if and only if every row refers to an event row; its rows are appended in order |
| `Recorder.ReferentialIntegrity` | eventrecorder/recorder.go:315-327 | Once the batch of events is in, the batch of attempts of the same call cannot break the foreign key |
| `Recorder.CallOutcome` | eventrecorder/recorder.go:315-331 | A call reports an error if and only if the connection fails or the event IDs do not fit the table; it then leaves the tables unchanged unless only its second batch failed and its first was not empty; it keeps the foreign key |
| `Recorder.SuccessStoresAll` | eventrecorder/recorder.go:315-331 | A call that succeeds leaves every event row under its ID, every attempt row in order, and nothing else new |
| `Recorder.ForeignKeyOverRuns` | eventrecorder/recorder.go:148-332 | Over any sequence of calls, whatever fails, no attempt row is without its event row |
| `Recorder.HalfFailureIsFinal` | eventrecorder/recorder.go:316-327 | If only the second batch fails, the events stay without attempts, and sending the same events again is refused |
| `Batches.ForeignKeyUnderInterleaving` | eventrecorder/recorder.go:315-327 | However the batches of any number of concurrent calls interleave, no attempt row is without its event row, and once the events of a call are in, its attempts fit |
| `Batches.WhatFailsACall` | eventrecorder/recorder.go:315-331 | Under interleaving a call fails only by its connection, or by event IDs that do not fit the table as it is when its first batch arrives; a failing batch changes nothing |
| `Batches.AloneIsSendBoth` | eventrecorder/recorder.go:315-331 | A call whose batches have no other between them does what the two-stage send does |
| `Recorder.EventRecorder.CollectAttempts` | eventrecorder/recorder.go:217-272 | The goroutines taken in lock order fill the map with the image of the attempts and append one row each |
| `Recorder.EventRecorder.RecordAggregateEvents` | eventrecorder/recorder.go:148-332 | The instruments get the emissions of every event in order, the tables what the two-stage send of all rows leaves; the result is its error |
| `Recorder.EventIsCarried` | eventrecorder/recorder.go:153-215 | Each column of an event row, and each argument of the metrics call, comes from its own field of the event; the SP ID is the answer if and only if the provider is a peer ID that parses and is not Bitswap; the two 64-bit counts are reinterpreted as signed |
| `Recorder.AttemptIsCarried` | eventrecorder/recorder.go:233-251 | The same for the attempts of that call |
| `Recorder.RowIsCarried` | eventrecorder/recorder.go:253-262 | The same for the attempt rows, one for each attempt |
| `Recorder.EmittedIsRun` | eventrecorder/recorder.go:274-290 | What it emits is the output of a run of v2 calls, one for each event, under the IDs of the events |
| `Recorder.EventRecorder.RecordEvents` | eventrecorder/recorder.go:72-146 | Without a database nothing happens; else every event is handled once, in order, so lifetimes and instruments end where the run of those steps ends, and the rows are stored if the batch is taken; the metrics stay valid either way |
| `Recorder.Dispatch` | eventrecorder/recorder.go:119-132 | The event goes to the handler of its name, and other names to none |

## Left out

- HTTP routing, JSON decoding, process start-up, configuration and shutdown: plumbing. The recorder is taken to see batches that passed validation.
- Mongo reports and their random sampling: they touch neither the tables nor the instruments.
- Set-up and bucket boundaries of the OpenTelemetry instruments: a counter is the number of its increments per label, a histogram the values recorded in it.
- Which entries the ARC cache evicts: in the class any one when a new entry comes to a full cache, under interleaving any at any time, as long as no more than 10,000 remain.
- The heyfil request, peer ID and CID parsing and `time.ParseDuration`: parameters with arbitrary results. A failed heyfil request is an empty reply.
- Floating-point seconds and the bandwidth division of metrics/events.go:139-140: durations stay whole nanoseconds, a v1 bandwidth keeps the two operands of its division.
- Column types and lengths in Postgres other than uuid, UNIQUE and the foreign key: a row refused for them counts as a batch that did not get through.
- Log lines and row-count callbacks: no effect on state.
- Firsts.FirstCountersBoundedByEntries: needs nonzero times, amounts of at least 1 and totals below 2^32 along the run; the exact condition is proved for one lifetime, in Firsts.AtMostOneFirst, without these bounds.
- CandidateCounting.ExactlyOneFirst: needs a sum below 2^32, as beyond that the running count can pass through 0 again; CandidateCounting.AtMostOneFirst and CandidateCounting.ExactlyOneFirstUnlessWrapped hold without it.
- SPMaps.SPMap.Run: runs on its own after Close; how it interleaves with callers is in SPMapProtocol, on values.
- Tempdata.TempDataMap.PoolGet: the pool, in the code one for the whole process, is a field of the one map that uses it.
- Recorder.EventRecorder.CollectAttempts: does not run the goroutines concurrently; their interleavings are in FanOut, on values.
- Outcomes.TotalRequestsAreDistinct: which IDs name the same retrieval is a parameter, since v2 IDs are text and the same uuid has several spellings.
