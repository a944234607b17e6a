# cf2otel: windows, commits, paging, identity, quotas and field joins

cf2otel polls Cloudflare over half-open time windows and moves a durable checkpoint only after a
window's records have been acknowledged by the telemetry backend. This project models its stateful
cores in Dafny and proves what they promise over every run. `dafny verify dfyconfig.toml` checks it.

Code that updates fields in place is a class whose methods are proved against a specification
function or predicate; the whole-run results are lemmas about those specifications. Instants and
durations are integers counting nanoseconds from the zero time, token counts, rates and metric values
are reals, errors and outcomes are datatypes, and everything read from outside (clock, network,
exporter, file system, cancellation) is an argument or a nondeterministic choice.

## How the files fit together

- **Scheduling.** `SchedulerSpec` says on values what one tick does, with a trace of the calls it
  makes. `Scheduler` is the class with its maps, its store and its pipelines, proved equal to that
  specification for one collector while no other collector's state changes. `SchedulerRuns` proves that
  no run leaves a silent hole behind the checkpoint, `SchedulerWindows` which windows a tick tries, what
  it asks and how far it gets, never past what has settled at the source, `SchedulerLimits` what the
  learned limits do over runs, and `SchedulerStrikes` when a rejected window is dropped. `Checkpoint` is
  the file replacement with crashes after any step, `RetentionGap` the search through wrapped and joined
  errors, `Splitter` the bisection of saturated windows.
- **Delivery.** `ExportObserver`, `LogBatch`, `SpanQueue` and `Providers` are the export pipelines
  with background flushes and other collectors' exports between any two lock sections. `Commit` is the
  chunked export of one window, `Delivery` how its end is read, and the scheduler's windows end with it.
  `DeliveryRuns` puts the two together: after any ticks of any collectors, whatever the scheduler counts
  as delivered is in batches the backends accepted.
- **Log paging.** `LogRows`, `LogPager`, `LogEmission` and `LogPaging` merge page streams under a
  horizon and emit whole source seconds within a byte budget. `DetailCache` holds fetched details.
- **Identity.** `TopRank`, `Logins` and `IdentityIndex`: two bounded heaps, a fingerprint set and a
  minute map; retention does not depend on the order or repetition of operations.
- **Quotas.** `TokenBuckets` (values and runs) and `Limiter` (the locked objects and the retry loop).
- **Queries.** `FieldChunks`, `JsonText`, `RowJson`, `RowJoin`, `RowRejoin`, `ChunkedRows`,
  `SharedTexts`, `NestedJoin` and `DatasetQuery`: a query cut into field chunks and rejoined by key, with
  what writing a row back does to its texts. `BatchPacking` packs batched selections,
  `Discovery` is the single-flight settings lookup.
- **Bounded series.** `ResourceNames`, `NamedSeries` and `FirewallSeries` keep totals while bounding
  names and series.

## Where the code and its comments or promises differ

- `internal/collector/splitter.go:12-13` says that an unsplittable window has no aligned point inside.
  `AlignedPointMissedExample` gives a window that does, `AlignedPointMissedExactlyWhen` says for which
  windows it happens, and two lemmas say which callers can never meet it.
- A joined row is written back with `json.Marshal` (`internal/cfapi/graphql.go:555`), which drops white
  space and escapes `<`, `>`, `&`, U+2028 and U+2029 in every raw value; the next join compares shared
  values as raw text (`internal/cfapi/graphql.go:590-593`). So a split into three chunks or more fails on a
  join field holding such a text. `ChunksRebuildRows` says exactly when the chunks are rebuilt,
  `SplitSharesJoinFields` that for a split it is when the join fields' values hold no such text, and
  `AmpersandStopsThirdChunk` gives a row that fails. `EncodeKeepsSense` says that the escapes change no
  value.
- `rowKey` (`internal/cfapi/graphql.go:560-586`) decodes a nested object into the map it is walking, so
  a nested join field adds that object's entries to the row itself. `NestedJoinRebuildsExactlyWhen` says
  for which rows the join then still rebuilds the row, `SharedNameIsOverwritten` gives a row whose own
  value is replaced, `OwnNameFails` one whose join fails, and `ChunksRebuildRows` treats every set of rows
  in which those objects share no name with the row or each other, which holds for the flat join fields
  this repository uses.
- `mergeJSON` (`internal/cfapi/graphql.go:588-608`) writes to a nil map when null meets a non-empty
  object on its right. `Merge` has no value there, and `NullNeedsAnEmptyRight` says exactly when it has.
- `LogPaging` emits by instant and then id; two rows of one window that share both (from two gateways)
  may come out in either order: `OrderIsOpenExactlyWhen` says that another order is possible exactly
  when two rows do. So equal order of the two forms of collection is proved when no two rows do, and
  equal contents without that condition.
- The third rejection of a window drops it (`internal/collector/scheduler.go:466-485`), but a tick starts
  at the whole second below the cursor (`internal/collector/scheduler.go:218-221`), so a window that
  starts between two whole seconds is never tried again as it was and its rejection does not count.
  `PoisonDroppedOnThirdAttempt` proves that three attempts suffice exactly when the window starts at a
  whole second, and `FractionalStartLosesAStrike` gives the other case: a collector that is not adaptive
  and returned a mark between whole seconds.
- An over-size record is not a payload rejection (`internal/collector/scheduler.go:583-584`), so the
  three-strike drop never applies to it: `Delivery.Read`.

## Assumptions

- Each clock is monotone where the source relies on the monotone clock: token buckets and budget
  increases. The scheduler's own results need no assumption about the clock. The limiter's timer never
  fires early, and may fire arbitrarily late.
- A collector's initial lookback is not negative, which its configuration ensures
  (`internal/config/config.go:749`); `TickSettles` and `NothingUnsettled` rest on it.
- Login fingerprints and the encoding of firewall attributes are injective.
- A faithful log listing is ascending in time, complete and names each row's gateway; without it the
  paging results say only what they state without that premise.
- A failed `rename` leaves the old file, a successful one the new file; data not yet synced may be torn
  by a crash.

## Model

| member | source | states |
|---|---|---|
| SchedulerRuns.NoSilentHole | internal/collector/scheduler.go:203-286 | Over any run with crashes, clock values, collector errors, export failures and failed writes: every instant from the first durable cursor to the current one was delivered and acknowledged, dropped after three payload rejections in a row of its window, or skipped with a flushed gap event; the second of the cursor never moves back. |
| SchedulerRuns.TickSound | internal/collector/scheduler.go:203-286 | One tick from a state that accounts for everything so far, at whatever point it stops, leaves a trace that does. |
| SchedulerRuns.FinishCommitSound | internal/collector/scheduler.go:448-513 | The end of a commit keeps the accounting: a durable cursor moves only over a window that was acknowledged or struck out, and the strike count in memory never exceeds the rejections in a row. |
| SchedulerRuns.SkipGapSound | internal/collector/scheduler.go:636-678 | A retention skip keeps the accounting: its gap event is flushed before the cursor moves over it. |
| SchedulerWindows.TickSettles | internal/collector/scheduler.go:203-286 | Every window a tick commits is the pinned one, ends at the last whole second at or before the clock less the collector's lag, or is as long as the limit in force and ends before that; nothing the tick commits, skips or persists reaches past that instant but to the end of a window pinned before; the first window starts at the last whole second at or before the cursor. |
| SchedulerWindows.NothingUnsettled | internal/collector/scheduler.go:203-286 | In any run, with any clock values, failures and crashes, no committed, skipped or durable instant is later than the clock less the lag of some tick of the run. |
| SchedulerWindows.FirstCursor | internal/collector/scheduler.go:215-233 | A collector's first cursor is the last settled whole second less the lookback, rounded down to a whole second for an adaptive collector, and is durable before anything is collected. |
| SchedulerWindows.LimitIsTightest | internal/collector/scheduler.go:302-320 | The limit in force is at most the configured and the learned window, is one of them up to the rounding to whole seconds, and is absent only when both are. |
| SchedulerWindows.TickReaches | internal/collector/scheduler.go:235-285 | A tick that ends without an error has brought the cursor to the last settled whole second, or made four windows, or left less than one window after one that its collector did not cut short; no tick makes more than four, none after a cancellation. |
| SchedulerWindows.AskedOnce | internal/collector/scheduler.go:386-416 | A window asks its collector once, from its start to the pinned end or its own, within the budget in force: no other answer of the collector matters. |
| SchedulerWindows.MarkExactlyWhen | internal/collector/scheduler.go:386-513 | A window is committed exactly when its collector returned an allowed mark and nothing was cancelled; it reaches a mark exactly when the write succeeded after an acknowledgement with metrics replayed, a third rejection, or a gap event that was logged, flushed and counted. |
| SchedulerWindows.WindowMoves | internal/collector/scheduler.go:386-513 | What any window leaves of the pin, with its exact strike count, and of the learned length, which only a missed deadline of an adaptive collector without budget changes, to half of the window in whole seconds if that is less. |
| SchedulerWindows.BudgetMoves | internal/collector/scheduler.go:346-384 | The budget asked next after any window: half, within its bounds, after a missed deadline; twice, up to the configured one, after an acknowledgement an hour after the last change; otherwise the same. |
| SchedulerWindows.SkipClearsTheFloor | internal/collector/scheduler.go:636-678 | A skip ends at the window's end or at the first whole second that is an interval, the fixed lag and a minute past the latest floor. |
| SchedulerLimits.AlwaysBounded | internal/collector/scheduler.go:302-384 | In every run learned windows are whole seconds of at least one second, payload budgets stay between their bounds, a pinned window fits the current limit, and an adaptive collector's durable cursors are whole seconds. |
| SchedulerLimits.DeadlinesHalve | internal/collector/scheduler.go:322-332 | From any reachable state, over any ticks of one process, a learned window never grows and is at most its start halved once per aggregate-deadline failure. |
| SchedulerLimits.DeadlinesReachOneSecond | internal/collector/scheduler.go:322-332 | After k aggregate-deadline failures of one process, with the learned window at most 2^k seconds, it is one second. |
| SchedulerLimits.HalvedReachesOneSecond | internal/collector/scheduler.go:322-332 | Logarithmically many halvings reach one second. |
| SchedulerLimits.ReduceSourceWindowShrinks | internal/collector/scheduler.go:322-332 | A deadline failure of a window within the limit learns whole seconds, at least one: the longest such length of at most half of the window, unless a shorter one was learned before; so at most half of the learned window and of the limit in force unless that is below a second. |
| SchedulerLimits.ReduceCommitBudgetClampIsDead | internal/collector/scheduler.go:358-372 | The final clamp of the budget reduction never changes the result. |
| SchedulerLimits.RestoreCommitBudgetWaits | internal/collector/scheduler.go:374-384 | A budget stays for an hour after its last change and then becomes exactly twice what it was, or the configured one if that is less. |
| SchedulerLimits.IncreasesAnHourApart | internal/collector/scheduler.go:346-384 | Over any ticks of one process whose clock does not run back, two windows that raise the budget are at least an hour apart, whatever happens between them, and each at most doubles it. |
| SchedulerLimits.TicksLead | internal/collector/scheduler.go:346-384 | The budget of any ticks moves window by window, each change with its clock, inside its bounds, and up only after an hour without change. |
| SchedulerStrikes.PoisonDroppedOnThirdAttempt | internal/collector/scheduler.go:386-513 | A window is rejected first as any window of a tick, and again by the next two commits, with any number of ticks between that commit nothing: all three tried the same window and the third persists its mark exactly when the window starts at a whole second, which an adaptive collector's always does; otherwise nothing is dropped yet. |
| SchedulerStrikes.PoisonRejected | internal/collector/scheduler.go:386-485 | Whatever mark the collector returns, a rejected commit is of the pinned window, adds one strike and keeps the cursor, or at the third gives the window up and persists its mark; a window that does not commit keeps a pin for its start. |
| SchedulerStrikes.EndsRejected | internal/collector/scheduler.go:235-285 | A rejection that ends a tick pins that window with one strike, whichever of the tick's windows it was, with the cursor at its start. |
| SchedulerStrikes.QuietTicks | internal/collector/scheduler.go:386-426 | Ticks that neither commit nor move the cursor keep the pin of the window at the cursor, and pin no other. |
| SchedulerStrikes.FractionalStartLosesAStrike | internal/collector/scheduler.go:203-222 | A window from one and a half seconds, rejected in three ticks running, that still holds the cursor. |
| Scheduler.WindowScheduler.RunWindow | internal/collector/scheduler.go:203-286 | With each commit's outcome that of its delivery, a tick changes the collector's cursor, pin, limits and calls exactly as specified, and no other collector's; each acknowledged window has all its collected records accepted. Where its windows end, start and lead is stated in SchedulerWindows. |
| Scheduler.WindowScheduler.CatchUp | internal/collector/scheduler.go:235-285 | The loop over at most four windows of the backlog is the specified one. |
| Scheduler.WindowScheduler.Commit | internal/collector/scheduler.go:386-447 | One window: the pin it takes, the budget, the collector's answer and mark, the retention gap. |
| Scheduler.WindowScheduler.Export | internal/collector/scheduler.go:448-457 | The commit reports its outcome once, and an acknowledged window's collected records are in accepted batches. |
| Scheduler.WindowScheduler.Finish | internal/collector/scheduler.go:448-513 | The commit and what follows it: what each outcome does to the pin, the learned limit, the budget and the cursor. |
| Scheduler.WindowScheduler.Skip | internal/collector/scheduler.go:636-678 | A retention skip moves the cursor to the second at or after the floor plus margin, clamped to the window's end, after a flushed gap event, or leaves the checkpoint untouched. |
| Scheduler.WindowScheduler.CountStrike | internal/collector/scheduler.go:466-485 | Rejections count only for the same window, and the third drops it. |
| Scheduler.WindowScheduler.Limit | internal/collector/scheduler.go:302-320 | The tighter of the configured and the learned window, in whole seconds for an adaptive collector. |
| Scheduler.WindowScheduler.ReduceWindow | internal/collector/scheduler.go:322-332 | Half of the failed window, at least one second, and only ever smaller. |
| Scheduler.WindowScheduler.ReduceBudget | internal/collector/scheduler.go:358-372 | Half of the budget within its bounds, with the instant of the change. |
| Scheduler.WindowScheduler.RestoreBudget | internal/collector/scheduler.go:374-384 | Twice the budget, or the configured one, after an hour without change. |
| RetentionGap.GapFloorIsLatest | internal/collector/scheduler.go:614-634 | The floor used for a skip is the largest floor anywhere in the joined and wrapped error, or the zero time. |
| RetentionGap.Visit | internal/collector/scheduler.go:614-634 | The recursive visit with its captured maximum computes the specified one. |
| RetentionGap.FirstGapFinds | internal/collector/scheduler.go:417-426 | The search through an error tree finds a gap exactly when the tree holds one, and one of the tree's. |
| Checkpoint.CrashLeavesOldOrNew | internal/collector/checkpoint.go:43-89 | A crash after any number of replacement steps leaves a file that loads as the old cursors, or the new ones once the rename was reached, never a torn one. |
| Checkpoint.AlwaysLoads | internal/collector/checkpoint.go:43-89 | After any sequence of replacements that completed, failed or crashed at any step, a crash finds a file that loads as the cursors of the last one renamed, temporary files left over or not. |
| Checkpoint.FileStore.Set | internal/collector/checkpoint.go:43-89 | The new value is visible exactly when no step failed, disk and memory agree after every return, and the disk is what the steps before the failing one leave, without the temporary file. |
| Splitter.SuccessIsPartition | internal/collector/splitter.go:63-84 | A successful bisection returns exactly the rows of unsaturated queries over a contiguous ordered partition of the window. |
| Splitter.SuccessIsWholeWindow | internal/collector/splitter.go:63-84 | When every unsaturated query returns the rows of its window of a fixed log, success returns the rows of the whole window. |
| Splitter.FailureHasCause | internal/collector/splitter.go:63-84 | Every window queried but the last answered with rows or was saturated and could be split. Success comes exactly when the last one did too; otherwise a failed query fails the whole, and a saturated window that cannot be split is named with its bounds and the reason, inside the requested window. |
| Splitter.QueryBound | internal/collector/splitter.go:63-84 | At most twice the step multiples strictly inside the window plus one queries are made. |
| Splitter.SplitsExactlyWhen | internal/collector/splitter.go:43-55 | Exactly which windows above the minimum split. |
| Splitter.AlignedPointMissedExactlyWhen | internal/collector/splitter.go:12-55 | A window is called unsplittable although a step multiple is inside exactly when the first multiple after its start is past its midpoint but before its end. |
| Splitter.AlignedPointMissedExample | internal/collector/splitter.go:12-55 | Such a window: 0 to 15 with step 10 and minimum 5. |
| Splitter.WideMinimumNeverUnsplittable | internal/collector/splitter.go:43-84 | With a minimum of two steps or more no bisection ends unsplittable. |
| Splitter.AlignedNeverUnsplittable | internal/collector/splitter.go:43-84 | With both ends aligned and a minimum of a step or more no bisection ends unsplittable. |
| ExportObserver.Observer.Record | internal/telemetry/export_observer.go:80-94 | Only failed log and trace exports count, and the ring keeps the last 1024 of them. |
| ExportObserver.Observer.FailedSince | internal/telemetry/export_observer.go:96-112 | A failure is reported exactly when one was recorded after the snapshot, even if the ring dropped it; the listed failures are exactly the later ones still held, with an omission noted exactly when there is one. |
| LogBatch.BoundedLogExporter.FlushLocked | internal/telemetry/log_batch.go:84-92 | A batch is gone from pending whether accepted or refused, and a refusal was recorded with its kind, and nothing else was. |
| LogBatch.BoundedLogExporter.Export | internal/telemetry/log_batch.go:63-83 | Records are taken in order into batches that concatenate to them, each of at most 64 records and 400 KiB or one record alone, and a batch goes out only when it is full or the next record does not fit; on an error the lost records and their loss are on record. |
| LogBatch.BoundedLogExporter.Flush | internal/telemetry/log_batch.go:36-52 | The background ticker's flush settles every pending record. |
| LogBatch.BoundedLogExporter.ForceFlush | internal/telemetry/log_batch.go:36-52 | A commit's flush settles every pending record, and what it returns is kept as this flush's answer. |
| SpanQueue.SpanExporter.ForceFlush | internal/telemetry/provider.go:195-216 | Success means that no span is still queued, a flush that leaves one reports a deadline, and no queued span was refused without a recorded failure. |
| Providers.Telemetry.FlushCommit | internal/telemetry/provider.go:196-216 | Success means that nothing failed since the snapshot and every record and span handed over before the call is settled, whatever ran in between; a failure reports exactly what the two signals' own flushes of this call returned and exactly the failures recorded since. |
| Commit.NoFailureMeansAccepted | internal/telemetry/export_observer.go:96-112 | When no failure was recorded since a snapshot, everything handed over after it and settled by now was in an accepted batch. |
| Commit.Commit | internal/collector/scheduler.go:563-613 | Success means that every log record and span of the window was in a batch its backend accepted during this commit, although other goroutines export, flush and fail meanwhile; the chunks are the window's records in order, each within 512 items and 512 KiB or one span of up to 1 MiB alone, none could have taken the next record too, and each was followed by one flush of both signals without an error. A refused record has a wrong instant, a too large one exceeds its bound, and success means that neither occurs. |
| Commit.ReplayAlone | internal/collector/scheduler.go:578-596 | A large span is alone between two flushes, with the earlier chunk and itself acknowledged; it is refused exactly for a wrong instant. |
| Commit.ChunkFlushed | internal/collector/scheduler.go:567-575 | A flush that reports no failure acknowledges exactly the records of the chunk since the last one. |
| Delivery.RejectedExactlyWhen | internal/collector/scheduler.go:515-531 | A failed flush counts as a payload rejection exactly when each signal's own error is one, so is every failure recorded since the snapshot, and none of those was lost from the ring. |
| Delivery.DeadlineExactlyWhen | internal/collector/scheduler.go:457-485 | A failed flush has a deadline exactly when a signal's own error is one or one of the last 1024 failures recorded since the snapshot is. |
| Delivery.PayloadRejected | internal/collector/scheduler.go:515-531 | Reading the joined errors one by one finds that. |
| Delivery.Read | internal/collector/scheduler.go:457-485 | What each end of a commit counts as: acknowledged, rejected, timed out only with a deadline error and the commit's own budget expired, or failed, as an over-size record always is. |
| Delivery.Deliver | internal/collector/scheduler.go:448-485 | A window counts as acknowledged exactly when its commit ended without error, and then every record is in an accepted batch; as rejected exactly when its last flush failed with neither signal's own error other than a payload rejection, every failure recorded since its last chunk began is one, and they are at most 1024; as timed out exactly when the commit's budget expired and a signal's own error or a recorded failure still held is a deadline; a record too large is neither. |
| DeliveryRuns.ServeAll | internal/collector/scheduler.go:386-513 | After any ticks of any collectors, whatever other goroutines do to the pipelines between them: each collector's state and calls are those of its own ticks, one after another, for the outcomes of their deliveries; every instant between two durable cursors is in a window whose every collected record the backends accepted, or was dropped after three rejections, or was reported lost. |
| DeliveryRuns.Serve | internal/collector/scheduler.go:203-286 | One tick changes its collector as specified for the outcomes of its deliveries, leaves every other collector alone and keeps what makes the whole process sound. |
| DeliveryRuns.RunningAtFirst | internal/collector/scheduler.go:203-222 | A process on an empty store starts there. |
| LogPaging.CollectWindowBudget | internal/collectors/aigateway/logs.go:118-196 | The mark is after the start and at most the end, a whole second if the end is; the buffer holds every row before the mark and none at or after it, in order; its bytes are at most the budget or the first second's; a mark before the end means that the next second's rows of the log would exceed the budget or the window has 500 rows or more; a complete listing always yields a mark, and the loop ends by the pages left. |
| LogPaging.CollectWindow | internal/collectors/aigateway/logs.go:109-162 | A call without a budget emits every row of the window in order. |
| LogPaging.RepeatedCallsEqualOneCall | internal/collectors/aigateway/logs.go:112-196 | Budgeted calls repeated from each mark emit exactly the rows of the one unbudgeted call, none lost or repeated, and in the same order when no two rows share instant and id. |
| LogPaging.CollectAll | internal/collectors/aigateway/logs.go:112-196 | Starting each call at the last mark reaches the end of the window. |
| LogPaging.ListFurther | internal/collectors/aigateway/logs.go:174-185 | Called only while no second is known or fewer than 500 rows are waiting: reads one page of exactly the pagers that hold the horizon back, at least one, leaves the others alone and keeps every pager exact. |
| LogPaging.TakeBefore | internal/collectors/aigateway/logs.go:318-339 | Exactly the pending rows before the limit leave the pagers, in emission order; each pager keeps exactly the others, in order. |
| LogPaging.Drain | internal/collectors/aigateway/logs.go:318-339 | The in-place compaction of one pager keeps exactly the rows at or after the limit. |
| LogPager.Pager.Next | internal/collectors/aigateway/logs.go:253-299 | A page of any listing adds exactly the first copies of its unseen rows of the window, in order, none before the horizon and all with a name and an instant; the call fails exactly on an error, a row without name or instant, a new row before the horizon or the page limit of 10000, and the listing ends exactly with an empty page or a row past the window; a pager on a faithful listing has exactly the rows read so far. |
| LogPager.Pager.HorizonIsSafe | internal/collectors/aigateway/logs.go:303-315 | Every row of the window before a pager's horizon is pending. |
| LogRows.OrderIsOpenExactlyWhen | internal/collectors/aigateway/logs.go:318-339 | Rows can be emitted in another order exactly when two of them share instant and id. |
| LogEmission.EmitSeconds | internal/collectors/aigateway/logs.go:202-239 | Whole seconds go out in order, the first always; emission stops at the start of the first later second that would exceed the budget. |
| DetailCache.Cache.Take | internal/collectors/aigateway/logs_cache.go:41-54 | An entry comes out exactly when the row has an unexpired one, and every unexpired entry of another row stays. |
| DetailCache.Cache.Put | internal/collectors/aigateway/logs_cache.go:56-102 | A settled, fresh and small enough detail replaces the row's entry and evicts the oldest entries only as far as needed; at most 6 entries, 16 MiB, one per row, and the byte count is their sum. |
| DetailCache.Cache.PruneBefore | internal/collectors/aigateway/logs_cache.go:104-112 | Exactly the rows at or after the mark stay, in order. |
| DetailCache.EvictionHasAnEntry | internal/collectors/aigateway/logs_cache.go:97-99 | Eviction never looks for an entry in an empty cache. |
| DetailCache.TakeKeepsOthers | internal/collectors/aigateway/logs_cache.go:41-54 | Taking a row's entry leaves every other row's unexpired entries, in order. |
| DetailCache.Prefetch.Get | internal/collectors/aigateway/logs_fetch.go:170-183 | The next row's delivered detail comes out, is put into the cache exactly when retention is on, and one more row is started, delivered from the cache exactly when that has it unexpired, with what it has; started rows stay at consumed plus three, or all, with at most three running, and every other delivered detail stays. |
| DetailCache.Prefetch.Start | internal/collectors/aigateway/logs_fetch.go:157-168 | A row is delivered at once exactly when the cache has an entry of it no older than five minutes, with that entry's detail, and is fetched otherwise. |
| DetailCache.Prefetch.AwaitAll | internal/collectors/aigateway/logs_fetch.go:190-191 | Waiting ends with no fetch running and a result for exactly the rows started and not read. |
| DetailCache.Prefetch.Stop | internal/collectors/aigateway/logs_fetch.go:185-204 | No fetch outlives the call; every result delivered and never read goes into the cache, in row order and as it was delivered, when retention is on, and the cache is unchanged when it is off. |
| DetailCache.PutAllKeeps | internal/collectors/aigateway/logs_fetch.go:185-204 | Retaining results adds no entry but theirs, and the last settled, fresh and small enough one is in the cache, last. |
| IdentityIndex.OrderIndependent | internal/identity/index.go:137-189 | Two histories of the same operations, in any order and replayed any number of times, retain the same candidates. |
| IdentityIndex.Replay | internal/identity/index.go:146-265 | After any interleaving of operations the candidates are the highest-ranked unexpired logins of the history. |
| IdentityIndex.MemoryIndex.Observe | internal/identity/index.go:146-189 | A login joins the history exactly when no part of it is blank, its host is more than a dot and it has an instant; both bounded heaps, the fingerprint set and the minute map still hold the top of it. |
| IdentityIndex.MemoryIndex.Lookup | internal/identity/index.go:191-220 | The answer is that of a plain scan of the candidates held before the call, whatever the map order and whatever the call itself expires. Over the candidates with the same address, the same host up to spaces, case and one final dot, and an instant at most the window before: ambiguous exactly when two of them differ in the user up to spaces and case, a match exactly when there is one and no ambiguity, and then the details of the latest; exactly one counter moves. |
| IdentityIndex.MemoryIndex.Scan | internal/identity/index.go:196-219 | Visiting the minutes and their candidates in any order finds no match, an ambiguity, or the highest-ranked match of the one user. |
| IdentityIndex.MemoryIndex.Advance | internal/identity/index.go:241-253 | Expiry removes exactly the candidates before the cutoff and keeps all structures consistent. |
| IdentityIndex.MemoryIndex.RemoveOldest | internal/identity/index.go:255-265 | The least candidate leaves the heap and the minute map, with no empty level left behind. |
| IdentityIndex.MemoryIndex.RejectedByBoth | internal/identity/index.go:161-166 | A login below the bounded fingerprints is below the candidates too, so rejecting it changes neither. |
| IdentityIndex.NewWithRetention | internal/identity/index.go:93-114 | An index is refused exactly for a window that is not positive, a shorter retention or no candidates. |
| TopRank.TopUnique | internal/identity/index.go:137-144 | The highest-ranked entries of a set are determined by the set and the bound. |
| TopRank.TopInsert | internal/identity/index.go:161-188 | One more entry enters below the bound or displaces the least one exactly when it ranks higher. |
| TopRank.TopExpire | internal/identity/index.go:241-253 | Expiring the kept entries is keeping the top of the unexpired ones. |
| TopRank.TopNested | internal/identity/index.go:161-166 | A wider bound keeps everything a narrower one keeps. |
| TopRank.PushSorted | internal/identity/index.go:33-65 | Pushing keeps the heap in rank order and adds exactly the new element. |
| Logins.AnswerIsUnique | internal/identity/index.go:191-220 | A scan of a set of candidates has one answer. |
| Logins.SameUserExactlyWhen | internal/identity/index.go:205-210 | Two logins are of one user exactly when their addresses are equal up to the spaces around them and the case of letters. |
| Logins.SameKeyExactlyWhen | internal/identity/index.go:116-118 | Two pairs have one key exactly when the address is equal up to spaces and the host up to spaces, case and one final dot. |
| Logins.ExpiryKeepsMatches | internal/identity/index.go:191-200 | Expiring for the looked-up instant removes nothing inside its window, because retention is at least the window. |
| TokenBuckets.RateBound | internal/cfapi/limiter.go:154-236 | After any run, over any next interval with clamps, pauses and attempts in any interleaving, the admissions take at most the burst plus the rate at its start times its length from each bucket. |
| TokenBuckets.AllOrNone | internal/cfapi/limiter.go:182-228 | An attempt takes one token from every bucket it names or none from any. |
| TokenBuckets.AdmitsExactlyWhen | internal/cfapi/limiter.go:192-218 | An attempt is admitted exactly when every bucket has a token and none is paused. |
| TokenBuckets.PauseHolds | internal/cfapi/limiter.go:165-177 | After a pause, whatever happens next, no admission uses the bucket before the pause is over. |
| TokenBuckets.RunEvolves | internal/cfapi/limiter.go:154-177 | Over any run a rate only falls and a pause only extends. |
| TokenBuckets.SleepAdmits | internal/cfapi/limiter.go:203-234 | An undisturbed sleep of at least the computed delay is admitted when every bucket can hold a token and refill it in time. |
| TokenBuckets.SleepAdmitsExactlyWhen | internal/cfapi/limiter.go:203-234 | For a sleep of exactly the computed delay that condition is also necessary. |
| TokenBuckets.DelayIsLeast | internal/cfapi/limiter.go:192-218 | The computed delay is the least: after any shorter undisturbed sleep some bucket still makes the caller wait. |
| Limiter.AcquireBudgets | internal/cfapi/limiter.go:182-236 | A caller that is admitted took one token from every bucket in its last try, when all were ready, and none before; one that is cancelled or still waiting leaves every bucket as its last try found it after refilling. Each try comes when the delay computed by the one before it is over, as late as the timer was and never before. |
| Limiter.UndisturbedIsAdmitted | internal/cfapi/limiter.go:203-236 | A caller whose buckets nobody touched while it slept and that can refill is admitted by its second try. |
| Limiter.TryAll | internal/cfapi/limiter.go:186-226 | One pass under the locks refills every bucket and takes a token from each exactly when the longest wait is over; the delay it returns is the one that DelayIsLeast and SleepAdmits bound from both sides. |
| Limiter.TokenBucket.ClampRate | internal/cfapi/limiter.go:154-163 | The rate becomes the lesser of the two, and the answer says whether it changed. |
| Limiter.TokenBucket.PauseFor | internal/cfapi/limiter.go:165-177 | The pause ends at the later of its end and the given delay from now; a delay that is not positive changes nothing. |
| Limiter.ScopeBuckets.Bucket | internal/cfapi/limiter.go:49-61 | One resource always gets the same bucket, no two share one, a new one starts full, and there is none without per-resource metering or a name. |
| ChunkedRows.ChunksRebuildRows | internal/cfapi/graphql.go:433-465 | For rows whose join fields are present, identify them as written, and whose objects on the way to a join field share no name with the row or each other: folding the join over all chunks rebuilds every row with the fields of all chunks, in the first chunk's order, whatever order later chunks arrive in; it succeeds for up to two chunks, and for more exactly when every text a later chunk shares with the ones before it is unchanged by writing. |
| ChunkedRows.FlatJoinIsExact | internal/cfapi/graphql.go:514-586 | Without nested join fields the rebuilt rows are exactly the selections of the original ones, as written once they were joined. |
| ChunkedRows.FlatJoinable | internal/cfapi/graphql.go:514-586 | With flat join fields only their presence and uniqueness is needed. |
| NestedJoin.WalkKeepsRowExactlyWhen | internal/cfapi/graphql.go:560-586 | Reading a join field one level down leaves the row's entries alone exactly when the nested object agrees on every shared name. |
| NestedJoin.NestedJoinRebuildsExactlyWhen | internal/cfapi/graphql.go:514-608 | The join over a nested join field rebuilds the row's own entries exactly when the nested object gives the same value, as written, to every name it shares with the row; it succeeds, adding the object's entries, when the object has no entry of its own name, and otherwise exactly when that entry agrees with the key. |
| NestedJoin.SharedNameIsOverwritten | internal/cfapi/graphql.go:514-586 | A row whose own count is replaced by a nested one in a join that succeeds. |
| ChunkedRows.JoinAddsChunk | internal/cfapi/graphql.go:459-464 | One more chunk in any order adds its fields to every row: always to rows as they came, and to rows an earlier join wrote exactly when the shared texts are unchanged by writing. |
| NestedJoin.OwnNameFails | internal/cfapi/graphql.go:514-608 | A row whose nested object has an entry of its own name that is no object: the join fails. |
| ChunkedRows.AmpersandStopsThirdChunk | internal/cfapi/graphql.go:533-607 | A row whose join field holds an ampersand: two chunks are rebuilt, three are not. |
| ChunkedRows.MergeChunks | internal/cfapi/graphql.go:433-465 | The chunk loop is the fold of joins, each writing its rows back. |
| RowRejoin.ExpandedMerge | internal/cfapi/graphql.go:541-555 | Two selections of one row, each with the walked objects' entries added and the left one perhaps written, merge exactly when writing changed nothing they share, and then to the written selection of both. |
| RowRejoin.KeyExpands | internal/cfapi/graphql.go:560-586 | The key of a row that already gained such entries is the original row's, as written, and taking it adds exactly the walked objects' entries. |
| RowJoin.JoinExactlyWhen | internal/cfapi/graphql.go:514-559 | A join gives these written rows exactly when counts agree, keys are unique as written on both sides, each left row has its right row and their values agree. |
| RowJoin.KeySetsMatch | internal/cfapi/graphql.go:514-559 | Success means that the two chunks' key sets are the same. |
| RowJoin.JoinRows | internal/cfapi/graphql.go:514-559 | The two loops with index and seen set compute the specified join, each row written back, or its failure. |
| RowJoin.KeyRow | internal/cfapi/graphql.go:560-586 | The nested loops compute the key, as written, and the row that decoding into it leaves. |
| RowJson.SelectionsMerge | internal/cfapi/graphql.go:588-608 | Two selections of one value merge to the selection of both, as written: always when neither was written before, and when the left one was exactly if every text they share is unchanged by writing. |
| RowJson.EncodeKeepsSense | internal/cfapi/graphql.go:555-607 | Writing a value back does not change what it means, and two values are written alike exactly when they mean the same. |
| RowJson.MergeFailsExactlyWhen | internal/cfapi/graphql.go:588-608 | Two values fail to merge exactly when at some path of both a text faces something else, or a null on the left an object that is not empty. |
| RowJson.MergeHolds | internal/cfapi/graphql.go:588-608 | A merged value, as written, has every path and every text of both values and no other text. |
| JsonText.StaysExactlyWhen | internal/cfapi/graphql.go:555-607 | A text is unchanged by writing exactly when it has none of the five escaped characters and no white space between tokens; writing twice changes nothing more. |
| JsonText.WrittenHasNone | internal/cfapi/graphql.go:555-607 | A written text has none of the characters 3C, 3E, 26, 2028 and 2029 (hexadecimal), and a text with none of them and no white space stays. |
| JsonText.WritingKeepsMeaning | internal/cfapi/graphql.go:555-607 | With its escapes read, a written text is the text, and texts are written alike exactly when they mean the same. |
| RowJson.MergeFields | internal/cfapi/graphql.go:588-608 | The loop over the right-hand names, in any order, computes the merge or its failure. |
| RowJson.NullNeedsAnEmptyRight | internal/cfapi/graphql.go:588-608 | Null merges with an object on its right exactly when that is empty, and with any object on its left, which is written out. |
| FieldChunks.FieldChunks | internal/cfapi/graphql.go:476-513 | Fails exactly when the fields exceed the limit and the join fields do not fit or are not offered; otherwise one chunk of everything, or chunks that each fit, start with the join fields, carry more, are all but the last as long as the limit, and together list the other fields in order. |
| FieldChunks.EachFieldOnce | internal/cfapi/graphql.go:500-511 | Exactly one chunk carries each field that is not a join field. |
| FieldChunks.SplitHasTwoChunks | internal/cfapi/graphql.go:476-513 | A real split of fields that differ without regard to case has at least two chunks, so none is missing. |
| FieldChunks.Intersect | internal/cfapi/graphql.go:267-293 | Every wanted field that is offered, once, in its first spelling and in the order wanted; all offered ones if none is named. |
| DatasetQuery.QueryWithSettings | internal/cfapi/graphql.go:383-475 | Which refusal each setting causes; no wanted and offered field is dropped, and they keep their order; the server is asked for the lesser of the request's limit, or 100, and the dataset's page size; rows come back, as written, as the in-order rows of all pieces, each with fewer rows than both; a saturated piece is reported with its bounds and limit. |
| DatasetQuery.PiecesTile | internal/cfapi/graphql.go:415-424 | The pieces follow each other without gap or overlap across the window, all but the last exactly as long as allowed. |
| DatasetQuery.SplitSelectsFields | internal/cfapi/graphql.go:476-513 | The chunks together select exactly the fields, and each selects the join fields. |
| DatasetQuery.SplitQueryIsLossless | internal/cfapi/graphql.go:433-608 | With top-level join fields that identify the rows, a query split for the field limit returns exactly the rows one unsplit query would select, as written, exactly when every text a chunk from the third on shares with the ones before it is unchanged by writing. |
| DatasetQuery.SplitSharesJoinFields | internal/cfapi/graphql.go:476-608 | For fields none of which lies inside another, a split into two chunks is always rebuilt, and one into more exactly when writing changes no text in the values of the join fields. |
| DatasetQuery.QueryIsTrue | internal/cfapi/graphql.go:383-608 | On a truthful dataset that cuts every answer to the asked limit and its page size, with top-level join fields, a query that returns rows returns exactly the dataset's rows of the whole window with every wanted and offered field, as written, however it was split; rows come back only when every piece has fewer rows than that page and its later chunks share no text that writing changes, the query fails only when some piece does not, and a piece reported as saturated has that many rows or more. |
| BatchPacking.Pack | internal/cfapi/batch.go:87-134 | Every selection is asked for once, in order; no request is empty or breaks a limit unless alone, none could have taken the next selection too, and no in-order packing within the limits has fewer requests. |
| BatchPacking.FewestRequests | internal/cfapi/batch.go:87-134 | A packing whose requests are all full has no more requests than any other of the same selections in order. |
| Discovery.SingleFlight | internal/cfapi/entitlement_backoff.go:24-58 | In every reachable state at most one request per key is in flight, its channel is open until its leader closes it once, and every waiter can wake or waits for such a leader. |
| Discovery.DenialHolds | internal/cfapi/entitlement_backoff.go:33-38 | Once a zone's denial is stored no caller, refreshing or not, asks again before it expires. |
| Discovery.ReplyDenies | internal/cfapi/entitlement_backoff.go:59-112 | The leader's denial is stored for the backoff, or an hour, with no other request for the key on its way. |
| Discovery.ReplyStores | internal/cfapi/entitlement_backoff.go:59-112 | A reply stores for its key, and returns to its leader, settings as present or a zone's absent dataset as disabled; a denial for the backoff or an hour, anything else for 45 minutes and the jitter; a failure, or an account's absent dataset, stores nothing. |
| Discovery.EnterLooks | internal/cfapi/entitlement_backoff.go:29-53 | A caller gets the cached value exactly when it has not expired and the caller does not refresh or it is a zone's denial; otherwise it waits for the request in flight, or makes one. |
| Discovery.CacheIsFromReplies | internal/cfapi/entitlement_backoff.go:24-112 | Over any run every cached entry is what some reply for its key said, with the expiry that follows from it. |
| Discovery.ResultsAreObtained | internal/cfapi/entitlement_backoff.go:24-112 | Over any run a caller returns only a value it found in the cache, not expired, or that its own request was told. |
| Discovery.RefreshIsTold | internal/cfapi/entitlement_backoff.go:24-53 | Over any run a caller that refreshes an account's settings returns only what its own request was told, however often it waited for the requests of others. |
| Discovery.InvKept | internal/cfapi/entitlement_backoff.go:24-58 | Every step keeps one leader per open channel and every waiter's channel open or closed. |
| Discovery.Client.Enter | internal/cfapi/entitlement_backoff.go:29-53 | One lock section: a usable entry, the open channel to wait on, or a new channel to lead. |
| ResourceNames.LoadNames | internal/collectors/d1/names.go:52-122 | A complete, consistent listing gives exactly the databases listed under one usable name that no other database has; without one there is nothing. |
| ResourceNames.ListedExactlyWhen | internal/collectors/d1/names.go:52-122 | The rows read are exactly those of a whole listing: at most a hundred pages from the first one on, each the one asked for with the size of the one before it, agreeing on a total of at most 5000, all but the last full, and reaching the total with the last and not before; nothing is read when there is none. |
| ResourceNames.ResolvedNamesDiffer | internal/collectors/d1/names.go:92-116 | Resolved names are injective despite duplicates and renames. |
| ResourceNames.NameAdmission.Admit | internal/collectors/d1/names.go:132-153 | A name once admitted stays admitted, at most 49 per metric, and every other name is the remainder. |
| NamedSeries.AggregateNamed | internal/collectors/d1/named_metrics.go:11-58 | The named points combine, for every metric, to exactly the sum or latest maximum of the rows without names; each admitted name has what its own databases' rows in the overall latest bucket total, and a name is missing only when its metric has 49; a bad row fails the call before any admission. |
| NamedSeries.MergeAdmitted | internal/collectors/d1/named_metrics.go:39-57 | Merging unadmitted names into the remainder loses and repeats no value, with one point per metric and name; an admitted name's point holds its own rows alone, and a name is admitted whenever there is room. |
| NamedSeries.Aggregate | internal/collectors/d1/d1.go:253-305 | Fails exactly on a row without bucket or metric; otherwise each metric's sum, or its maximum in the latest bucket. |
| NamedSeries.CounterTotal | internal/collectors/d1/d1.go:253-305 | A counter's total is the sum of its values over the five-minute buckets wholly inside the window, if there are any. |
| NamedSeries.GaugeIsLatest | internal/collectors/d1/d1.go:253-305 | A gauge's total is the largest of its values in the latest five-minute bucket wholly inside the window, if there are any. |
| NamedSeries.OwnIsPicked | internal/collectors/d1/names.go:155-182 | The group of a name has the total of the rows whose database has that name. |
| NamedSeries.NamedRows | internal/collectors/d1/names.go:155-182 | Each row is in the group of its name, a gauge's only if it is in the latest bucket. |
| NamedSeries.PickSplits | internal/collectors/d1/named_metrics.go:27-38 | The total over a set of names splits into the totals of its parts. |
| NamedSeries.CollectForever | internal/collectors/d1/names.go:124-153 | Every one of any number of calls gets its answer, none exactly for a bad row and otherwise the totals of its rows by the names admitted so far; over all results together a metric shows at most 50 names. |
| FirewallSeries.BoundMetrics | internal/collectors/firewall/dimensions.go:116-170 | The total count never changes and the series stay within the cap: all of them, or the first in order and one remainder. |
| FirewallSeries.ListedOnce | internal/collectors/firewall/dimensions.go:140-149 | The kept series do not depend on the order of the samples. |
| FirewallSeries.LegacyFirst | internal/collectors/firewall/dimensions.go:140-149 | No series with an enrichment comes before one without, and two of a kind follow their codes. |
| FirewallSeries.Group | internal/collectors/firewall/dimensions.go:122-139 | Equal series are summed, and no other. |

## Left out

- HTTP, JSON and GraphQL text, redirects, headers, redaction, configuration and the mapping of rows to attributes: the server is a function from requests to rows or errors, and a row's emitted size is part of the row.
- The OpenTelemetry SDK: an exporter accepts or refuses a batch and reports to the observer; span batching is a queue, metric readers and callbacks are not modelled.
- The text of export errors (`internal/collector/scheduler.go:515-531`): each failure is of a kind, a payload rejection, a deadline or another; whether the commit's own budget expired is a free choice.
- A scheduler without emitter or flusher, `CollectRange`, the poll summary and the scheduling of ticks.
- The failure counter's wrap-around after 2^64 failures and the saturation of durations outside `TokenBuckets.Sub`.
- The array layout of `container/heap`: a heap is its elements in rank order, of which only the least is read. Candidates are compared by value, not by pointer.
- HMAC fingerprints, their key and the random cache jitter: an injective function and an argument.
- Unicode: trimming, case folding and lengths are those of ASCII text.
- Float rounding: tokens, rates and metric values are reals; in `TokenBuckets.NeverRefills` the comparison is the one the source makes in float64.
- `ConfigureProcessRateLimit`: it replaces buckets only before any use.
- `LogPaging`: a pager is a gateway, so one gateway configured twice, which the configuration allows and which emits every row twice, does not arise.
- `LogPager.Pager`: log ids and gateways are numbers, so a configured gateway with an empty name does not arise, and each call gets its pages as one finite list.
- `CollectWindowBudget`'s context cancellation, its one-call-at-a-time guard and the hand-over of details to the next call.
- Query renegotiation after a field error and the encoding of filters and of window bounds to whole seconds in request text.
- RowJson.Merge: objects are compared as maps, so a shared value whose object text differs only in the order of names counts as equal; a failure and a write to a nil map are both `None`.
- ChunkedRows.ChunksRebuildRows: for nested join fields only rows whose objects share no name; without that the exact condition is stated for one join of one nested field.
- RowJoin.JoinRows: with no join fields at all, which no split query has, a null row is read as an empty one.
- JsonText.Written: the escaping and compaction that `json.Marshal` of Go's `encoding/json` applies to raw values, for well-formed JSON text; the names of an object are compared decoded and stay as they are.
- NamedSeries.AggregateNamed: a dataset's metrics are all counters or all gauges, as every dataset of the repository is; the lookup of names and its one-hour cache are an argument.
- FirewallSeries.BoundMetrics: the cap is at least one, which its caller ensures; series are ordered by an injective code of their attributes instead of their JSON text.
- The validation of batch selections and the reading of batch responses in `QueryBatch`.
- DetailCache.Prefetch.Get: cancelled waits of the consumer and a missing prefetch are not modelled; a fetch in flight delivers an arbitrary detail, and a detail's size is part of it.
- DeliveryRuns.ServeAll: ticks of different collectors follow each other, with other exports and flushes between them and inside each; a crash of the process is in `SchedulerRuns.NoSilentHole` alone.
- Durable Objects and KV naming, Access, DNS, email and audit collectors: the same shapes as those modelled.
