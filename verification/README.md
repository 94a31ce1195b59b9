# A verified model of the QAN agent's data path

The Percona query analytics agent watches a MySQL or MongoDB server, turns what it
sees into reports, spools the reports and sends them to an API. This project models
the stateful algorithms on that path in Dafny and proves what they guarantee over
whole runs.

| component | modules | the question answered |
|---|---|---|
| Performance Schema worker | `PerfSchemaTables`, `PerfSchemaWorker`, `PerfSchemaRuns` | do reports made from partial fetches and a cache equal reports made from full snapshots, and do they add up? |
| slow log worker | `SlowLogIter`, `SlowLogWorker`, `SlowLogCoverage` | is every byte and event of a growing, rotating log processed exactly once? |
| data spool | `SpoolKeys`, `Spooler`, `SpoolPurge` | which files does a purge keep, and is the ledger of count and size right? |
| data sender | `Sender`, `SenderStats` | when may a file leave the spool, and what does the sliding window of statistics hold? |
| analyzer | `Analyzer` | what holds in every state of the run loop and its goroutines? |
| MongoDB aggregator | `Aggregator` | is every document in exactly one window? |
| reports | `Reports` | does a limited report conserve queries and time? |
| log relay | `Relay` | which log entries are kept, resent and lost? |

`Words`, `Sums` and `Text` hold 64-bit arithmetic, sums over maps, and ordered
strings with decimal numbers.

Objects the source updates in place are classes. Each method is proved against a
function or relation on plain values (`AfterRun`, `AfterTick`, `AfterRemove`,
`Buffered`, ...), and the theorems about runs are proved of those. The goroutines of
the analyzer, the aggregator's timer and the writers of the slow log are state
machines whose steps may interleave freely.

Go semantics that matter and are kept: the `Rows` maps of the digest cache are
shared objects (`RowMap`); unsigned arithmetic wraps (`Wrap`); durations saturate
(`SenderStats.Sub`); map iteration order is arbitrary (loops pick any remaining
key); `append` writes into the array it was sliced from (`Reports.MakeReport`);
integer division truncates towards zero and a negative age becomes a huge unsigned
one (`Spooler.Age`).

Where a promise does not hold of the code as it is, the code is modelled as it is
and a lemma says when the promise is kept, exactly unless noted otherwise:

- A reset of the Performance Schema worker is documented to drop all collected data,
  and a truncation to drop its snapshot, but `Digests.Reset` assigns `All` twice and
  leaves `Curr`. After either kind of reset the worker goes on like a new one if and
  only if the next interval can connect or there is no current snapshot; else Cleanup
  merges the dropped snapshot: `PerfSchemaRuns.ResetForgetsIff`, with
  `DroppedSnapshotReturnsIff` for intervals out of sequence and
  `TruncatedSnapshotReturnsIff` for truncations.
- A reported class minimum depends on map order when a count wraps:
  `PerfSchemaWorker.SwapKeepsAggregateIff` is exact for two rows visited one after
  the other. For all orders of a class at once only a sufficient condition is proved
  (`PerfSchemaTables.ClassIsUnique`: its executions fit 64 bits).
- A failed fetch moves counts into the cache unreported: the term `Lost` in
  `PerfSchemaRuns.Conservation`.
- A partial fetch is sure to hold every changed row if and only if the time asked for
  reaches back to the last reading: `PerfSchemaRuns.NextFetchCoversIff`.
- A rotation by any job but the last: `SlowLogCoverage.LateRotationIsSafeIff`; with
  no retained logs: `SlowLogWorker.RotatedLogSurvives`.
- A purge keeps a suffix of the listing under all limits if and only if no file is
  followed by an older one: `SpoolPurge.AlwaysKeepsSuffixIff`. With several services
  (`SpoolPurge.TwoServicesPurgeTheNewest`) or files stamped ahead of the clock
  (`SpoolPurge.FutureFilesCountAsOld`) one may be.
- Overwriting, removing what is not there, failed reads, a second Start and a purge in
  the middle of a remove spoil the ledger: `Spooler.WriteAccurateIff`,
  `Spooler.RemoveAccurateIff`, `Spooler.FailedReadSpoilsLedger`,
  `Spooler.DiskvSpooler.Start`, `Spooler.InterruptedRemoveSpoilsLedger`.
- The statistics window is too long when the run that fills it could be pruned:
  `SenderStats.RetainsWindowIff`.
- Starting the analyzer again while something of the last run is left:
  `Analyzer.StartAgainIsSafeIff`, `Analyzer.StartAgainGoesWrongIff`; and it forgets the
  time of the last interval: `Analyzer.StartAgainShowsLatestIff`.
- A timer flush that is late repeats a window: `Aggregator.WindowsSeparateIff`.
- A limited report spoils the class array it was made from:
  `Reports.InputKeepsTimeIff`.
- A partial resend makes the relay overwrite entries: `Relay.ResendMayOverwriteIff`.
  Those of the second buffer are counted when it is thrown away, those of the first
  never are: `Relay.AllDropsCountedIff`, `Relay.FirstGapStays`.

## Model

| member | source | states |
|---|---|---|
| PerfSchemaWorker.CopyRows | qan/analyzer/mysql/worker/perfschema/digests.go:43-45 | the target row map becomes the union in which source rows win, also when both are one shared map |
| PerfSchemaWorker.Digests.constructor | qan/analyzer/mysql/worker/perfschema/digests.go:21-25 | a new cache is empty and well formed |
| PerfSchemaWorker.Digests.Reset | qan/analyzer/mysql/worker/perfschema/digests.go:50-53 | the cache is emptied and the current snapshot is left as it was |
| PerfSchemaWorker.Digests.MergeClass | qan/analyzer/mysql/worker/perfschema/digests.go:37-46 | one class is shared if new and updated in place if known; every other class and the current snapshot keep their rows |
| PerfSchemaWorker.Digests.MergeCurr | qan/analyzer/mysql/worker/perfschema/digests.go:36-47 | the cache becomes the merge of cache and current snapshot, whatever row maps they share, and the current snapshot does not change |
| PerfSchemaWorker.FirstRowWins | qan/analyzer/mysql/worker/perfschema/worker.go:440-461 | of several rows for one class and schema a snapshot holds the first received |
| PerfSchemaWorker.OnlyReceivedRows | qan/analyzer/mysql/worker/perfschema/worker.go:440-461 | a class and schema never received is in no snapshot |
| PerfSchemaWorker.SameClassIff | qan/analyzer/mysql/worker/perfschema/worker.go:436-439 | digests of 32 or more characters share a class if and only if characters 16 to 31 agree up to case; all shorter ones share one, with no longer digest |
| PerfSchemaWorker.FirstTextWins | qan/analyzer/mysql/worker/perfschema/worker.go:446-461 | a class has the text of the first row received for it, or a placeholder if the digest is short and it has none |
| PerfSchemaWorker.AddToSnapshot | qan/analyzer/mysql/worker/perfschema/worker.go:436-461 | a received row is added to its class, starts a new class with its text, or is dropped as a duplicate |
| PerfSchemaWorker.Collect | qan/analyzer/mysql/worker/perfschema/worker.go:424-465 | the snapshot of a row stream, in row maps shared with nothing else |
| PerfSchemaWorker.SummaryStep | qan/analyzer/mysql/worker/perfschema/worker.go:527-564 | adding one more executed row turns the aggregate of the rows seen into the aggregate that includes it |
| PerfSchemaWorker.SwapKeepsAggregateIff | qan/analyzer/mysql/worker/perfschema/worker.go:527-564 | two rows visited one after the other, from any running aggregate, give the same aggregate in either order if and only if: their minima are equal, when the count is zero after both; else the count is zero after either one or after neither, or the minimum so far is no less than theirs |
| PerfSchemaWorker.OverflowMakesMinimumOrderDependent | qan/analyzer/mysql/worker/perfschema/worker.go:549-557 | the example: two new rows whose counts add up to 2^64 give the minimum of whichever comes last |
| PerfSchemaWorker.SummarizeRows | qan/analyzer/mysql/worker/perfschema/worker.go:497-565 | in any visiting order: a truncation is reported exactly if some count went down, else the aggregate has the wrapped sums, averages, maximum and capped minimum of the executed rows |
| PerfSchemaWorker.CompareClasses | qan/analyzer/mysql/worker/perfschema/worker.go:480-646 | in any visiting order: truncated exactly if any count of any class went down, else the report of exactly the classes that executed, with their global sums |
| PerfSchemaWorker.Worker.constructor | qan/analyzer/mysql/worker/perfschema/worker.go:236-253 | a new worker has seen nothing |
| PerfSchemaWorker.Worker.Reset | qan/analyzer/mysql/worker/perfschema/worker.go:348-355 | cache, interval and fetch time are forgotten, the current snapshot is not |
| PerfSchemaWorker.Worker.Setup | qan/analyzer/mysql/worker/perfschema/worker.go:255-271 | an interval out of sequence or before the last one resets the worker first |
| PerfSchemaWorker.Worker.GetSnapshot | qan/analyzer/mysql/worker/perfschema/worker.go:397-466 | everything is asked for if the cache is empty, else what was seen since the last fetch, measured by the clock before the fetch; the time after it is remembered; the answer, even a failed one, becomes a snapshot |
| PerfSchemaWorker.Worker.PrepareResult | qan/analyzer/mysql/worker/perfschema/worker.go:468-647 | a truncated table resets the worker and yields no report, else the report of the difference and an unchanged worker |
| PerfSchemaWorker.Worker.Run | qan/analyzer/mysql/worker/perfschema/worker.go:273-305 | new state and outcome for a missing connection, a failed fetch, a first snapshot, a truncation and a normal interval |
| PerfSchemaWorker.Worker.Cleanup | qan/analyzer/mysql/worker/perfschema/worker.go:307-320 | merges the current snapshot, or panics and merges nothing if the interval is nil |
| PerfSchemaWorker.Worker.Process | qan/analyzer/mysql/analyzer.go:421-449 | Setup, Run and the deferred Cleanup take the worker to the state the run theorems are about |
| PerfSchemaTables.ClassIsUnique | qan/analyzer/mysql/worker/perfschema/worker.go:497-578 | all metrics of a class but the minimum are determined by its rows, and the minimum too if its executions fit 64 bits |
| PerfSchemaTables.ReportedIff | qan/analyzer/mysql/worker/perfschema/worker.go:502-520 | a class is reported if and only if one of its rows has another count than the cached row, or than zero without one; nothing is reported if no class is |
| PerfSchemaTables.OneRowClass | qan/analyzer/mysql/worker/perfschema/worker.go:527-578 | the metrics of a class of one row in numbers |
| PerfSchemaTables.ReportIsUnique | qan/analyzer/mysql/worker/perfschema/worker.go:480-646 | if no class count overflows a report is determined by the two snapshots, so map order does not matter |
| PerfSchemaTables.ClassIsOrdered | qan/analyzer/mysql/worker/perfschema/worker.go:549-578 | min <= avg <= max of every row carries over to the class despite integer division and the capped minimum |
| PerfSchemaRuns.PartialReport | qan/analyzer/mysql/worker/perfschema/worker.go:484-565 | comparing the cache with a partial snapshot that holds every changed row admits exactly the reports of comparing it with the full snapshot, and detects exactly the same truncations |
| PerfSchemaRuns.PartialMerge | qan/analyzer/mysql/worker/perfschema/digests.go:36-47 | merging such a partial snapshot makes the cache the full snapshot |
| PerfSchemaRuns.AgreementStep | qan/analyzer/mysql/worker/perfschema/worker.go:273-320 | one interval on a cache that equals the server's table reports the full difference and ends with a cache that equals the new table |
| PerfSchemaRuns.ReportsAgreeWithFullSnapshots | qan/analyzer/mysql/worker/perfschema/worker.go:397-566 | over every run of consecutive intervals with successful fetches, any of which may fail to connect: the reports are those of diffing the full snapshots of consecutive connections, none without a connection or an earlier table, with the cache always equal to the table of the last connection |
| PerfSchemaRuns.EmptyCacheFetchesAll | qan/analyzer/mysql/worker/perfschema/worker.go:409-413 | from a server that answers each query by what it asks for, a worker with an empty cache fetches the whole table, whenever rows were last seen and whatever the clock says |
| PerfSchemaRuns.CachedFetchesChanges | qan/analyzer/mysql/worker/perfschema/worker.go:409-413 | with a cache it fetches every row changed since it was read, if the clock went back or the window since the end of the last fetch reaches back to the reading |
| PerfSchemaRuns.WatchedReportsAgree | qan/analyzer/mysql/worker/perfschema/worker.go:397-566 | over every run against such a server every report is the difference between the full tables of consecutive connections, and the worker remembers when its last fetch was done |
| PerfSchemaRuns.MergeGain | qan/analyzer/mysql/worker/perfschema/digests.go:36-47 | what a merge adds to a class total is the sum of the differences of its executed rows |
| PerfSchemaRuns.ReportedIsGain | qan/analyzer/mysql/worker/perfschema/worker.go:502-547 | the counter reported for a class, or zero if it is not in the report, is the wrapped sum of those differences |
| PerfSchemaRuns.ConservationStep | qan/analyzer/mysql/worker/perfschema/worker.go:280-320 | one interval without a reset reports what the cache gained |
| PerfSchemaRuns.Conservation | qan/analyzer/mysql/worker/perfschema/worker.go:280-304 | over every run without resets, with any failed connections and fetches, what was reported for a counter plus what failed fetches swallowed is what the cache gained, in 64-bit arithmetic |
| PerfSchemaRuns.FailedFetchIsMerged | qan/analyzer/mysql/worker/perfschema/worker.go:288-310 | a failed fetch reports nothing and the rows that came before it failed replace the cached ones |
| PerfSchemaRuns.CountersAddUp | qan/analyzer/mysql/worker/perfschema/worker.go:502-547 | without failed fetches every counter that does not go down adds up exactly |
| PerfSchemaRuns.CountGrows | qan/analyzer/mysql/worker/perfschema/worker.go:513-520 | unless it resets the worker never lets a cached count go down |
| PerfSchemaRuns.ExecutionsAddUp | qan/analyzer/mysql/worker/perfschema/worker.go:522-527 | the executions reported for a class add up to its final minus its first cumulative count |
| PerfSchemaRuns.ResetForgetsIff | qan/analyzer/mysql/worker/perfschema/digests.go:49-53 | from any reset state the next interval leaves the worker as it would leave a new one if and only if it can connect or there is no current snapshot; without a connection the cache is the dropped snapshot |
| PerfSchemaRuns.OutOfSequenceResets | qan/analyzer/mysql/worker/perfschema/worker.go:255-266 | an interval out of sequence is processed like any interval after a reset |
| PerfSchemaRuns.SetupResetsIff | qan/analyzer/mysql/worker/perfschema/worker.go:255-266 | an interval whose number is not the next or whose start is before the last gives the state of a reset, any other changes only the interval |
| PerfSchemaRuns.TruncationResets | qan/analyzer/mysql/worker/perfschema/worker.go:513-520 | a truncation reports nothing and leaves a reset worker whose current snapshot is the truncated one, which is not empty |
| PerfSchemaRuns.DroppedSnapshotReturnsIff | qan/analyzer/mysql/worker/perfschema/worker.go:255-266 | the snapshot dropped by an interval out of sequence is back in the cache afterwards if and only if that interval cannot connect |
| PerfSchemaRuns.TruncatedSnapshotReturnsIff | qan/analyzer/mysql/worker/perfschema/worker.go:513-520 | a truncated snapshot is back in the cache after the next interval if and only if that cannot connect |
| PerfSchemaRuns.DroppedSnapshotIsCompared | qan/analyzer/mysql/worker/perfschema/worker.go:406-413 | a worker that kept a dropped snapshot does not ask for everything next and reports the difference with that snapshot |
| PerfSchemaRuns.WindowReachesBackIff | qan/analyzer/mysql/worker/perfschema/worker.go:144-146 | with NOW() in whole seconds, what is asked for reaches back to the instant a row was read if and only if the clock second advanced since by no more than the whole seconds between the end of the previous fetch and asking; where the window can start |
| PerfSchemaRuns.FetchCoversIff | qan/analyzer/mysql/worker/perfschema/worker.go:144-146 | the answer to a partial fetch holds every changed row if and only if every changed row was last seen within the time asked for |
| PerfSchemaRuns.NextFetchCoversIff | qan/analyzer/mysql/worker/perfschema/worker.go:404-413 | of two consecutive fetches the second gets every row that changed since the first read it, whatever changed, if and only if its window reaches back that far |
| SlowLogIter.Iter.constructor | qan/analyzer/mysql/worker/slowlog/iter.go:81-82 | the iterator starts without file and interval |
| SlowLogIter.Iter.Tick | qan/analyzer/mysql/worker/slowlog/iter.go:88-151 | the new cursor and the completed interval of a tick, for missing, same and changed files and first ticks; the interval sent is not touched again |
| SlowLogIter.IntervalOfTick | qan/analyzer/mysql/worker/slowlog/iter.go:88-151 | over every run of ticks an interval is completed if and only if this tick and the one before found the log; intervals are numbered 1, 2, 3 and so on, start at the previous tick and stop with this one, and run from where the log ended then, or zero if it changed identity, to where it ends now |
| SlowLogWorker.NewerCount | qan/analyzer/mysql/worker/slowlog/worker.go:450-454 | the position in the sorted listing is the number of newer logs |
| SlowLogWorker.SurplusIsPrefix | qan/analyzer/mysql/worker/slowlog/worker.go:450-454 | the names cut off the sorted listing are those outranked by at least as many as are retained, for any number to retain |
| SlowLogWorker.PurgeOldLogs | qan/analyzer/mysql/worker/slowlog/worker.go:442-461 | removes exactly the surplus logs that can be removed; panics, with nothing removed, if and only if a negative number of retained logs reaches beyond the array of the listing |
| SlowLogWorker.RetainedCount | qan/analyzer/mysql/worker/slowlog/worker.go:450-454 | as many logs survive as are to be retained, or all if there are fewer |
| SlowLogWorker.RotateSlowLog | qan/analyzer/mysql/worker/slowlog/worker.go:402-464 | when an attempt is refused, done or panics, the files left in each case, that a refused one leaves the interval alone and any other stretches it to the end of the renamed file; if no log was rotated later the job finds its file if and only if at least one log is retained or it cannot be removed |
| SlowLogWorker.RotatedLogSurvives | qan/analyzer/mysql/worker/slowlog/worker.go:442-461 | the log just rotated survives, with its contents, if and only if at least one is retained or it cannot be removed; exactly the retained number of rotated logs is left if all can be removed |
| SlowLogWorker.OtherFilesStay | qan/analyzer/mysql/worker/slowlog/worker.go:419-461 | every other file stays as it is unless it is a rotated log with enough newer ones that can be removed; no other file appears |
| SlowLogWorker.IsRotatedIff | qan/analyzer/mysql/worker/slowlog/worker.go:446-446 | a log counts as rotated if and only if its name is that of the slow log, a dash and anything |
| SlowLogWorker.Setup | qan/analyzer/mysql/worker/slowlog/worker.go:139-172 | rotation is tried if and only if it is enabled and the log is large enough, and then files and interval are those of the attempt, else unchanged; the job is the interval afterwards, and there is none after a panic |
| SlowLogWorker.RotatedOrder | qan/analyzer/mysql/worker/slowlog/worker.go:419-420 | for timestamps of one width the order of rotated names is the order of time |
| SlowLogWorker.RetentionByTime | qan/analyzer/mysql/worker/slowlog/worker.go:446-461 | a rotated log is removed exactly when at least the retained number of others are younger |
| SlowLogWorker.NoneLaterByTime | qan/analyzer/mysql/worker/slowlog/worker.go:419-420 | if rotated logs have timestamps of one width that are not after the attempt, none has a later name |
| SlowLogWorker.AggregateEvents | qan/analyzer/mysql/worker/slowlog/worker.go:241-306 | the events taken, why the loop ended, and that all events taken agree on rate type and limit |
| SlowLogWorker.JobAggregatesItsRange | qan/analyzer/mysql/worker/slowlog/worker.go:266-274 | a job that nothing ends early and whose queries can be fingerprinted aggregates exactly the log's events with an offset in its range, in log order |
| SlowLogWorker.JobAggregatesOnce | qan/analyzer/mysql/worker/slowlog/worker.go:243-306 | a job that nothing ends early aggregates an event that can be fingerprinted once if it is in the log and in the range, else not at all, whatever becomes of other events |
| SlowLogCoverage.InvStep | qan/analyzer/mysql/worker/slowlog/iter.go:88-151 | every step of log, iterator and rotation keeps the ranges of jobs ordered and behind the cursor |
| SlowLogCoverage.NoByteTwice | qan/analyzer/mysql/worker/slowlog/iter.go:81-151 | in every orderly run, with failed ticks and logs moved by others, no byte of any generation is in two jobs |
| SlowLogCoverage.LateRotationIsSafeIff | qan/analyzer/mysql/worker/slowlog/worker.go:437-440 | stretching a job keeps jobs disjoint if and only if every later job of that generation is empty |
| SlowLogCoverage.LateRotationIsReachable | qan/analyzer/mysql/worker/slowlog/worker.go:437-440 | a run from the start, orderly up to a late rotation, that ends with a byte in two jobs |
| SlowLogCoverage.CompleteStep | qan/analyzer/mysql/worker/slowlog/worker.go:419-440 | every undisturbed step keeps the covered bytes equal to the due ones |
| SlowLogCoverage.EveryByteOnce | qan/analyzer/mysql/worker/slowlog/iter.go:117-151 | in every undisturbed run exactly the bytes between the first tick and the reached position are in a job, each in one, including those written between a tick and the rename |
| SlowLogCoverage.EveryEventOnce | qan/analyzer/mysql/worker/slowlog/worker.go:243-306 | with event loops that nothing ends early, an event that can be fingerprinted is in the output of exactly one loop, once, if and only if it is due |
| SpoolKeys.KeyRoundTrip | data/spooler.go:368-378 | for every int64 the timestamp printed into a key is parsed back if and only if the service name has no underscore |
| SpoolKeys.TimestampIff | data/spooler.go:368-378 | a name has a timestamp if and only if it is a service, one underscore, and an optional sign and digits that fit 64 bits, and then it is that number |
| SpoolKeys.KeyOrder | data/spooler.go:317-318 | keys of one service with non-negative timestamps of one width are in time order |
| SpoolKeys.ServiceOrder | data/spooler.go:119-125 | for different services without underscore, keys are ordered as the names followed by an underscore, whatever their timestamps |
| SpoolKeys.ServiceOrderOfNames | data/spooler.go:119-125 | if neither name is a prefix of the other, that is the order of the names |
| Spooler.WriteAccurateIff | data/spooler.go:328-338 | a write keeps an accurate ledger accurate if and only if it stores under an unused key |
| Spooler.RemoveMovesLedger | data/spooler.go:242-260 | a remove moves the ledger by one file and the size remembered for it, or else read |
| Spooler.RemoveAccurateIff | data/spooler.go:242-260 | a remove keeps an accurate ledger accurate if and only if the file exists and has, modulo 2^64, the length that is remembered or read |
| Spooler.FailedReadSpoilsLedger | data/spooler.go:235-240 | after a failed read a remove keeps the ledger accurate if and only if the file exists and its length is a multiple of 2^64; never for files of 1 to 2^64 - 1 bytes |
| Spooler.LedgerStep | data/spooler.go:471-491 | every proper operation keeps the ledger: writes under valid, unused keys with no other size remembered, reads, removes of existing files, and purges, also with unreadable files |
| Spooler.PurgeRestoresLedger | data/spooler.go:390-390 | whatever the ledger said, a purge that can erase every file leaves an accurate one |
| Spooler.InterruptedRemoveSpoilsLedger | data/spooler.go:242-260 | a remove leaves an accurate ledger if nothing happens between erasing and locking, and a wrong one if a purge does |
| Spooler.RecountChangesNothing | data/spooler.go:443-469 | a recount of an accurate spool changes nothing |
| Spooler.LedgerStaysAccurate | data/spooler.go:443-491 | over every sequence of proper operations count and size are those of the stored files and a recount changes nothing |
| Spooler.WriteKeepsLedgerIff | data/spooler.go:328-338 | a write keeps the ledger if and only if it is proper: valid key, not in use, no other size remembered for it |
| Spooler.FreshKeysKeepLedger | data/spooler.go:130-155 | over every sequence of writes under valid keys never used before, reads, removes of existing files and purges all operations are proper and the ledger stays accurate |
| Spooler.ReusableIff | data/spooler.go:242-260 | a removed key can be used again for any data if and only if its size was remembered before the remove |
| Spooler.UntouchedStays | data/spooler.go:328-338 | a write stores exactly its bytes, what an operation does not touch stays as it is, and nothing else appears |
| Spooler.WrittenStays | data/spooler.go:328-338 | over every run what was written under a key is stored there until a later operation writes or removes it or a purge lists it |
| Spooler.PurgeListsWhatItRemoves | data/spooler.go:409-438 | a purge lists every file with a valid name that it removes and changes none |
| Spooler.RecountKeepsIff | data/spooler.go:443-469 | a recount keeps exactly the files with a valid name that can be read and those that cannot be erased, unchanged |
| Spooler.PurgeKeepsLedger | data/spooler.go:409-438 | the ledger is right after every removal of a purge |
| Spooler.DiskvSpooler.constructor | data/spooler.go:79-94 | a new spooler has an empty ledger |
| Spooler.DiskvSpooler.TallyFile | data/spooler.go:450-468 | one file is counted and may be the oldest, or is erased, if it can be, because it cannot be read or its name is invalid |
| Spooler.DiskvSpooler.Tally | data/spooler.go:130-155 | all files that can be read and have valid names are added to the ledger, the others erased as far as they can be, and the oldest timestamp is found |
| Spooler.DiskvSpooler.Start | data/spooler.go:127-155 | files and ledger after the scan; if all bad files are gone the ledger is accurate if and only if it was empty before, and on a new spooler the invariant of the run theorems holds if and only if they are gone |
| Spooler.DiskvSpooler.UpdateStats | data/spooler.go:443-469 | the ledger is recounted from the files that can be read and have valid names, the others are erased as far as they can be |
| Spooler.DiskvSpooler.WriteData | data/spooler.go:316-338 | stores the data if it can and moves the ledger in any case |
| Spooler.DiskvSpooler.Read | data/spooler.go:235-240 | returns the bytes and remembers their number |
| Spooler.DiskvSpooler.Remove | data/spooler.go:242-260 | erases the file, moves the ledger by the remembered or read size, zero if it cannot be read, and forgets a size only if it was remembered before |
| Spooler.DiskvSpooler.Purge | data/spooler.go:380-441 | visits the files in name order, then recounts, and reports what it removed, also with unreadable files and files that cannot be erased |
| SpoolPurge.PurgeCuts | data/spooler.go:410-438 | removals form a prefix of the listing: first the files over the age limit, then those with which the rest is over the size limit, then those with which it is over the limit on files, up to the first suffix that fits |
| SpoolPurge.PurgeKeepsLongestFittingSuffix | data/spooler.go:380-441 | with an accurate ledger and no file followed by an older one a purge keeps exactly the longest suffix within all limits; the removed lists partition the rest in order, each file under the limit it was over, and n is their number; the recount changes nothing |
| SpoolPurge.PurgeOfOneService | data/spooler.go:380-441 | in particular for files of one service with timestamps of one width not ahead of the clock |
| SpoolPurge.AlwaysKeepsSuffixIff | data/spooler.go:411-436 | a purge does so under all non-zero limits if and only if no file in the listing is followed by an older one, files of zero and one second counting as equal |
| SpoolPurge.PurgeByAgeOnly | data/spooler.go:423-425 | with no limit on size and number a purge removes exactly the files over the age limit |
| SpoolPurge.PurgeTakesAll | data/spooler.go:394-398 | if any limit is zero every file is purged and listed as such |
| SpoolPurge.AgeOfPast | data/spooler.go:419-419 | the age of a file not ahead of the clock is the elapsed whole seconds |
| SpoolPurge.OneServiceIsNewestLast | data/spooler.go:411-419 | files of one service with timestamps of one width not ahead of the clock get younger in name order |
| SpoolPurge.FutureFilesCountAsOld | data/spooler.go:419-425 | a file stamped a second or more ahead of the clock has an age beyond every int64 limit, and age zero if and only if it is less than that ahead |
| SpoolPurge.TwoServicesPurgeTheNewest | data/spooler.go:430-436 | an example: with two services a purge for number removes the newest file and keeps the oldest |
| Sender.Sender.Deliver | data/sender.go:197-257 | what follows a file, the counters, the removal and the spool as functions of the bytes and the reply |
| Sender.Sender.SendAllFiles | data/sender.go:183-260 | a turn over the listing of the spool does what the turn function says, with its timeouts, read errors and replies |
| Sender.Sender.Send | data/sender.go:116-181 | a run does what the run function says: its spool, counters, removals and number of connections are those the lemmas below are about |
| Sender.TurnExact | data/sender.go:183-260 | a turn makes exactly the removals of the answers on its way, in order, and takes off the spool exactly those that can be erased |
| Sender.TurnRemovalsIff | data/sender.go:183-260 | those are the removals at the places the turn reaches: in time, all files up to there readable, all before it letting the turn go on |
| Sender.TurnsExact | data/sender.go:149-181 | the same for any rest of a run: exactly the exchanges of its turns remove files |
| Sender.SendRemovesIff | data/sender.go:146-260 | a removal is made if and only if its exchange happened: its turn connected and came to its place, the file listed there held its bytes and the answer there is the reason; removals are in the order of the exchanges, one each; exactly the erased files are gone |
| Sender.FileLeavesIff | data/sender.go:197-257 | a file leaves the spool if and only if some turn of the run came to it, could erase it, and its bytes were acknowledged with 2xx or 4xx, or it is empty, or everything is discarded |
| Sender.LeavesOnlyAcknowledged | data/sender.go:230-257 | in numbers: a file that left was read in time by a turn that connected, and was empty, or everything is discarded, or the answer to it was a code from 200 to 299 or 400 to 499 |
| Sender.FileByCode | data/sender.go:230-257 | spool, removals, counters and what follows for every code: 200 to 298, 299, 400 to 499, 500 and above, and all others |
| Sender.AnswerEndsTurn | data/sender.go:230-257 | at a file that is not empty no answer or a code below 200 or from 300 to 399 keeps the file and ends the turn in a retry; 500 and above keeps it and ends the run with one API error; 299 removes it and ends the run |
| Sender.RemovalCarriesContent | data/sender.go:190-197 | the bytes sent for a file are its contents |
| Sender.WrittenIsSent | data/sender.go:190-220 | if a file is written and nothing touches it before a send run the bytes sent for it are the bytes written |
| Sender.ErasedOnce | data/sender.go:183-260 | nothing more is done with a file once it is erased |
| Sender.SendTurnsIff | data/sender.go:149-181 | a turn takes place if and only if fewer than three came before, all of them broke off at a failed connection, an unreadable file or an unusable answer, and time is not up |
| Sender.TurnTimesOutIff | data/sender.go:188-194 | a turn counts a timeout if and only if time is up when it comes to some file |
| Sender.LateRunTimesOut | data/sender.go:151-157 | a run that is late at the head of the loop counts one timeout and connects no more |
| Sender.SmoothRunEmptiesSpool | data/sender.go:183-260 | a run that comes to a turn that is never late, reads and erases everything and gets only final codes other than 299 ends with it and leaves an empty spool |
| Sender.RetriesCleanly | data/sender.go:183-260 | a turn that leads to another had no API error and no timeout, any other had at most one of them; the counters match the removals |
| Sender.SendEnds | data/sender.go:149-181 | at most three connections; ApiErrs + Timeouts <= 1; Files, BadFiles and Bytes match the removals and BadFiles <= Files |
| Sender.BadAreAcknowledged | data/sender.go:236-249 | bad files are among the files |
| Sender.TurnsKeepAccurate | data/sender.go:146-260 | a run keeps an accurate ledger of the spool accurate |
| SenderStats.ExpiredStartsWindow | data/stats.go:92-114 | pruning a chronological list stops at the start of its shortest suffix that spans the duration |
| SenderStats.Retained | data/stats.go:79-126 | after every chronological history: the retained list is everything as long as the window was not full before the latest run, and else the shortest suffix that spans the duration; begin, end and full |
| SenderStats.RetainsWindowIff | data/stats.go:79-126 | the retained list is the shortest suffix that spans the duration, or all of it if none does, if and only if the window was full before the latest run or no proper suffix spans it |
| SenderStats.RetainsWindowOnRealClocks | data/stats.go:117-122 | always, if the first run ends at least the duration after the zero time |
| SenderStats.WindowUnique | data/stats.go:92-114 | there is only one such suffix |
| SenderStats.ZeroKeepsLatest | data/stats.go:92-114 | a zero duration keeps only the latest run |
| SenderStats.EarlyClockRetainsTooMuch | data/stats.go:117-122 | two runs are both kept although the second spans the duration, whenever the first ends sooner after the zero time than that |
| SenderStats.SenderStats.Sent | data/stats.go:79-126 | the object follows the window function |
| SenderStats.SenderStats.Report | data/stats.go:128-151 | begin, end and each of the seven totals as the sum of its quantity over the retained runs |
| SenderStats.SumIsTotal | data/stats.go:128-151 | each of the seven totals is the sum of its own quantity over the runs |
| SenderStats.ReportSumsWindow | data/stats.go:79-151 | a report after any chronological history has the totals over the shortest suffix that spans the duration, or over everything as long as the window was not full before the latest run |
| Analyzer.RunLoop.constructor | qan/analyzer/mysql/analyzer.go:290-318 | the loop starts unconfigured and idle |
| Analyzer.RunLoop.TakeInterval | qan/analyzer/mysql/analyzer.go:332-351 | an interval starts a worker exactly if MySQL is configured and none is running |
| Analyzer.RunLoop.TakeDone | qan/analyzer/mysql/analyzer.go:352-366 | the loop is idle again and shows the later of the two start times |
| Analyzer.RunLoop.TakeConfigured | qan/analyzer/mysql/analyzer.go:367-388 | MySQL is configured and the iterator runs |
| Analyzer.RunLoop.TakeRestart | qan/analyzer/mysql/analyzer.go:389-398 | a restart stops the iterator and starts an attempt exactly if MySQL was configured |
| Analyzer.InvStep | qan/analyzer/mysql/analyzer.go:331-403 | every channel operation keeps the protocol invariant |
| Analyzer.Safety | qan/analyzer/mysql/analyzer.go:284-404 | in every reachable state: at most one worker or done message, which the loop knows; configured, iterating and no attempt pending, or none of that and exactly one, which may have been aborted once the analyzer is closing; intervals worked on in order, none twice or forgotten; the time shown is the latest finished and the current interval the last started |
| Analyzer.DoneNeverBlocks | qan/analyzer/mysql/analyzer.go:408-417 | a finished worker can always send its done message, also after closing |
| Analyzer.IterStartsAndStopsAlternate | qan/analyzer/mysql/analyzer.go:367-398 | the iterator is started only when stopped and stopped only when running |
| Analyzer.ClosingDrains | qan/analyzer/mysql/analyzer.go:213-221 | once the loop has returned nothing new starts and as long as goroutines are left one of them can end |
| Analyzer.ClosingLoopMayGoOn | qan/analyzer/mysql/analyzer.go:399-401 | while the analyzer is closing the loop can stop at any time, and may still start a worker if and only if an interval is waiting, MySQL is configured and no worker runs |
| Analyzer.StartAgainIsSafeIff | qan/analyzer/mysql/analyzer.go:104-134 | every state of every run after a second start keeps the whole protocol if and only if the first run left no attempt, worker or done message |
| Analyzer.StartAgainGoesWrongIff | qan/analyzer/mysql/analyzer.go:284-404 | some run after a second start has two workers at once if and only if a worker or done message was left over, and one starts the iterator while it runs if and only if an attempt was |
| Analyzer.TwoWorkersAreReachable | qan/analyzer/mysql/analyzer.go:104-134 | a run from a fresh analyzer that is stopped, and a second run that comes to have two workers |
| Analyzer.StartAgainShowsLatestIff | qan/analyzer/mysql/analyzer.go:320-366 | in every state after a second start the time shown is that of the latest interval of all if and only if it is not before the time shown when the first run stopped |
| Analyzer.LeftoverInterval | qan/analyzer/mysql/analyzer.go:332-351 | an interval left in the queue is the first the second run takes and is worked on if and only if MySQL is configured by then |
| Aggregator.Aggregator.constructor | qan/analyzer/mongo/profiler/aggregator/aggregator.go:27-50 | the first window is aligned and opened at the given time, the timer is armed when the aggregator is started; an interval of zero means the default |
| Aggregator.Aggregator.NewInterval | qan/analyzer/mongo/profiler/aggregator/aggregator.go:241-249 | an empty window, truncated to the duration |
| Aggregator.Aggregator.FlushAt | qan/analyzer/mongo/profiler/aggregator/aggregator.go:205-229 | a window with documents becomes a report, an empty one does not, and a new window opens |
| Aggregator.Aggregator.Add | qan/analyzer/mongo/profiler/aggregator/aggregator.go:79-105 | old documents are skipped, later ones flush first, refused ones are counted but not kept, and the timer is armed anew |
| Aggregator.InvStep | qan/analyzer/mongo/profiler/aggregator/aggregator.go:205-249 | every step keeps the invariant and never moves the window back |
| Aggregator.EveryDocInItsWindowOnce | qan/analyzer/mongo/profiler/aggregator/aggregator.go:79-105 | for every interleaving: aligned windows of one length, starts that never go back, and the documents kept are exactly those of the reports followed by the open window, each within its window |
| Aggregator.AddKeepsIff | qan/analyzer/mongo/profiler/aggregator/aggregator.go:79-105 | over every run a document is kept if and only if it is not refused and not stamped before the open window, and then is in the window open afterwards; the timer is re-armed unless it is too old; the window before is reported if it has documents and the stamp is at or after its end |
| Aggregator.FlushSeparatesIff | qan/analyzer/mongo/profiler/aggregator/aggregator.go:241-249 | a flush moves past its report if and only if it happens at or after the end of the window |
| Aggregator.WindowsSeparateIff | qan/analyzer/mongo/profiler/aggregator/aggregator.go:184-249 | over every run the windows of all reports are disjoint and precede the open window in all states up to some point if and only if no flush before it made a report before its window had ended |
| Aggregator.StaleFlushRepeatsWindow | qan/analyzer/mongo/profiler/aggregator/aggregator.go:184-191 | a stale flush leads to two reports of one window |
| Aggregator.StaleFlushIsReachable | qan/analyzer/mongo/profiler/aggregator/aggregator.go:139-191 | a run from the start with such a flush that ends with two reports of one window |
| Aggregator.ApartStep | qan/analyzer/mongo/profiler/aggregator/aggregator.go:99-100 | the re-armed timer cannot fire within the open window, so prompt steps keep windows apart |
| Aggregator.PromptWindowsAreDisjoint | qan/analyzer/mongo/profiler/aggregator/aggregator.go:182-203 | if every firing is followed at once by its flush all windows are disjoint |
| Reports.FoldTotals | vendor/github.com/percona/go-mysql/event/class.go:114-134 | the folded class has the wrapped sum of queries, the sum of time and the number of the classes folded |
| Reports.FoldExtremes | vendor/github.com/percona/go-mysql/event/class.go:127-132 | its minimum and maximum are those of the classes folded |
| Reports.Sort | qan/analyzer/report/report.go:44-56 | a descending permutation in place; panics if and only if there are two or more classes and one has no Query_time |
| Reports.FoldRest | qan/analyzer/report/report.go:92-96 | the classes after the limit, folded |
| Reports.ReportConserves | qan/analyzer/report/report.go:89-97 | the top classes and the remainder have the queries and the time of all classes |
| Reports.MakeReport | qan/analyzer/report/report.go:54-100 | all classes in descending order, or limit + 1 classes whose kept ones rank at least as high as the folded ones, with totals conserved; the array cell overwritten; a panic exactly for limits that do not fit an int and classes that cannot be sorted |
| Reports.InputKeepsTimeIff | qan/analyzer/report/report.go:90-97 | the overwritten array keeps its total time if and only if the folded classes after the first have none |
| Relay.Relay.constructor | log/relay.go:54-76 | empty buffers and no connection |
| Relay.Relay.Recycle | log/relay.go:195-202 | a full second buffer is counted lost, cleared and started again |
| Relay.Relay.Buffer | log/relay.go:169-203 | the entry goes to the first free buffer, within bounds |
| Relay.Relay.Send | log/relay.go:205-220 | what is sent, what is buffered and when an error is returned |
| Relay.Relay.ResendBuffer | log/relay.go:229-237 | every occupied slot whose send succeeds is emptied, in order |
| Relay.Relay.Warn | log/relay.go:239-251 | one warning, not buffered, and the lost count is reset |
| Relay.Relay.Resend | log/relay.go:222-263 | the buffers left and what was put on the wire, for any pattern of failures |
| Relay.BufferedIsSound | log/relay.go:180-202 | buffering keeps occupied slots <= recorded size <= 50 in both buffers |
| Relay.BufferedAccounts | log/relay.go:180-202 | what buffering stores, overwrites and gives up accounts for every entry |
| Relay.ResentIsSound | log/relay.go:229-262 | so does a resend, whichever sends fail |
| Relay.ResentAccounts | log/relay.go:229-262 | what leaves the buffers in a resend is what was sent |
| Relay.RunsAreSound | log/relay.go:169-263 | over every run no size leaves its bounds and every logged entry is on the wire, stored or dropped as often as it was logged |
| Relay.DropsAreAccounted | log/relay.go:169-263 | over every run the number of entries dropped is the sum of the losses in warnings on the wire, in warnings that could not be sent, counted since, and of what the recorded sizes exceed the stored entries by |
| Relay.AllDropsCountedIff | log/relay.go:180-203 | all drops have been counted if and only if both recorded sizes are the numbers of entries stored |
| Relay.FirstGapStays | log/relay.go:180-182 | what is missing in the count of the first buffer never becomes less |
| Relay.GapStep | log/relay.go:196-203 | throwing the second buffer away makes up for what was missing there |
| Relay.NeverSentTwice | log/relay.go:231-235 | an entry logged once is sent at most once and then is in no buffer |
| Relay.BufferAllForm | log/relay.go:177-202 | after n entries the first buffer holds the first 50, the second exactly the latest ((n-51) mod 50)+1, and the rest is lost |
| Relay.ReconnectEmitsInOrder | log/relay.go:222-263 | a fully successful resend then emits the first entries, one warning if any were lost and the latest entries in order, and empties both buffers |
| Relay.CompactOverwritesNothing | log/relay.go:180-192 | as long as the buffers have no holes nothing is overwritten, and they stay so |
| Relay.ResendStaysCompactIff | log/relay.go:229-237 | a resend of a buffer without holes leaves one if and only if some send fails after one has succeeded |
| Relay.MayOverwriteIff | log/relay.go:180-192 | some sequence of entries comes to overwrite one if and only if an occupied slot lies at or above the recorded size of its buffer |
| Relay.ResendMayOverwriteIff | log/relay.go:229-262 | after a resend of buffers without holes that can happen if and only if in one of them some send failed after one had succeeded |
| Relay.PartialResendLosesSilently | log/relay.go:180-182 | an example: of two buffered entries only the first is resent, and the next entry overwrites the second without counting it |

## Left out

- The websocket client, the API connector, HTTP, TLS and encodings: whether a send, a receive or a connect succeeds is an input.
- SQL: what the server answers to a fetch or a configuration statement is an input; EXPLAIN, table info and query rewriting are not modelled.
- The slow log parser, the fingerprinters and the event aggregator: the parser is assumed to send the events from the start offset on in order, a fingerprinter either works or refuses, and aggregation collects events.
- diskv: a map from names to bytes that lists its names in order; read and erase errors are inputs, and a listing is of the files present when it starts.
- Example queries of the Performance Schema worker, digest texts in its reports, status strings, logging, rates and formatted sizes.
- Floating point: seconds in statistics are integers and class times are reals, so rounding is not modelled.
- PerfSchemaRuns.ReportsAgreeWithFullSnapshots: that a partial fetch holds every changed row is a hypothesis about the server; FetchCoversIff and NextFetchCoversIff say when the request guarantees it, for a server whose clock agrees with the agent and that records when it saw a row.
- PerfSchemaRuns.Conservation: for counters other than the execution count it needs the hypothesis that a counter moves only when its row executes, since rows with an unchanged count are skipped and yet cached.
- SlowLogCoverage.EveryByteOnce: jobs are the intervals sent; an interval lost because nobody receives it, or skipped because a worker is still running, is never processed and its bytes with it.
- Spooler.LedgerStaysAccurate: operations are atomic steps; of those that can run while Remove waits for the lock only a purge is considered, in InterruptedRemoveSpoilsLedger.
- Sender.Sender.Send: files written to the spool while a run is sending are not modelled; time enters only as whether it is up.
- PerfSchemaWorker.SwapKeepsAggregateIff: exact for two adjacent rows; which classes keep their minimum in all orders once counts wrap is not characterised.
- SenderStats.RetainsWindowIff: durations are those of a real window; the smallest int64, which saturated differences cannot tell apart, is excluded.
- Reports.MakeReport: of the metrics of a class only Query_time with its sum, minimum and maximum is modelled; averages and the other metrics of AddClass are not.
- Aggregator: Stop and restarts of the aggregator, its statistics other than those of Add, and the computation of query statistics from documents.
- The MySQL and MongoDB managers, instance and agent management, the installer and configuration loading: mostly wiring.
