# TronFire: a verified model of its concurrent core

TronFire supervises Firebird databases. This project models, in Dafny, the parts of it whose correctness depends
on order, interleaving or failure, and proves what they keep.

Each module has the same shape. A class or a method follows the program statement by statement and is proved
against functions on values (`ensures View() == ...`). A `Step` function puts those functions together into a
state machine with one event per stretch of code between two awaits, per database call, per shell step or per
message. `Step` is total, an event that cannot happen in a state leaves it unchanged, so `Runs.Exec(Step, s, evs)`
over an arbitrary sequence `evs` ranges over every run and every interleaving, and time only moves forward. The main
results are statements about all of them.

| module | what it models |
|---|---|
| `Runs` | runs of a state machine |
| `ShellQuoting` | quoting of argument lists, against a reader of shell input after sections 2.2.1, 2.2.2 and 2.3 of the POSIX.1-2017 Shell Command Language |
| `Heartbeats` | the Windows agent's heartbeat queue with failing sends and crashes |
| `ProbeCache` | the single-flight cache, against the history of its loads |
| `RoutineLocks` | routine locks and circuit breaker of the worker |
| `BackupPruning` | worker retention and administrator cleanup deleting between each other |
| `SessionHistory` | reconciliation of observed sessions |
| `SweepRetry` | the scheduled sweep, its retry timer and counter |
| `Validation` | weekly restore validation: calendar, window, plan |
| `BackupSchedule` | when automatic backups start |
| `Reservation` | prepare, claim, release and expire on one database row |
| `FileScripts` | the shell scripts that replace database files |
| `Promotion` | promotion of standby databases |

## Where the code does less than one would expect

These properties do not hold of the code in general. The model keeps the code as it is, gives a concrete run or
input, and proves when the property does hold.

- Quoting an empty argument list yields the one word `undefined`; the round trip holds if and only if the list is not
  empty (`ShellQuoting.RoundTrip`).
- A tick that is not cut short drops its own payload if and only if it is not paired or the server refuses a
  queued row sent ahead of it (`Heartbeats.TickPayloadKept`, a run in `Heartbeats.SecondPayloadLost`).
- A value stored before an invalidation can still reach a later caller, if and only if some load of the key stands
  between storing its value and its `finally` callback (`ProbeCache.InvalidateExact`). The outcome of a load begun
  before the invalidation can reach one if and only if a load of the key is then in flight
  (`ProbeCache.OvertakenExactly`).
- A routine that lasts an hour or more is overlapped by one of another name (`RoutineLocks.GrantedExactly`); a sweep,
  whose default timeout is 180 minutes, then runs beside a backup of the same database
  (`RoutineLocks.LongSweepOverlapped`). No lock is ever taken from another routine for that
  (`RoutineLocks.OneYoungRoutine`, `RoutineLocks.LeaveOwnOnly`).
- A breaker record that has tripped is stored only after the writes awaited before it. A success of the same database
  in between, by an overlapping routine, is undone: the breaker opens with no failure since it
  (`RoutineLocks.SuccessBeforeStore`), or counts on from before it. Both happen only through such a success, and
  exactly when it can lead there is known (`RoutineLocks.SuccessExactly`, `RoutineLocks.SettledExactly`).
- The administrator's cleanup protects a newest backup if and only if the normalized number to keep is a number above
  zero (`BackupPruning.KeepExact`). A numeric 0 counts as absent and keeps one; the text "0", a negative number
  and a text that is no number keep none.
- Session retention removes a row that is still open if and only if it belongs to another database than the one
  collected and was not seen for 30 days (`SessionHistory.OpenRowRemovedExactly`).
- The worker validates a second backup in one period when its plan cannot see the first: the row or its manifest was
  removed, 80 later successes hide it, or a row created later was validated in an earlier period
  (`Validation.DueExactly`, a run in `Validation.LostManifestRepeats`). Among the worker's own backups only the 80
  successes matter (`Validation.WorkerValidatesOncePerPeriod`). An
  automatic maintenance validates its backup in any period (`Validation.MaintenanceRepeats`, exact condition in
  `Validation.ApartExactly`).
- A second claim of one preparation succeeds if and only if the first one's data left the preparation message in place
  (`Reservation.SecondClaimExactly`). Expiry-clear, acquire and release write by id after an earlier read; if the row
  changes in between, two owners are possible (`Reservation.StaleClearAdmitsTwo`, where the worker judges the
  snapshot of its pass hours later; exact condition in `Reservation.WriteExact`).
- The from-upload restore shuts the database down with gfix before it takes the safety copy
  (`FileScripts.ShutBeforeCopy`): the copy is of the untouched original if and only if that shutdown changed nothing
  (`FileScripts.FromUploadExactly`), and there is none at all exactly between the shutdown and the end of the copying
  (`FileScripts.CopyMissingExactly`).
- A physical file received only in part replaces the standby file, because the script trusts `gstat -h`; every run is
  safe if and only if the file is complete (`FileScripts.PhysicalRestoreSafe`).
- Something that throws after the SUCCESS write of a backup quarantines its file and marks it FAILED (worker.js:1567-1596,
  server.js:2524-2531). If a deleter has meanwhile come to rely on it, that can cost the last backup
  (`BackupPruning.DemotionLosesAll`, exact condition in `BackupPruning.DemotionExactly`).

One result rests on a time limit. Backups are never lost between the two deleters when every backup finishes within a
day, the shortest retention there is, and no backup a deleter relies on is demoted
(`BackupPruning.PromptBackupsNeverLost`); the backend cuts its backups at four hours and the worker runs its backups
and its retention in turn. What would happen to a backup that outlasts its retention is stated exactly all the same
(`BackupPruning.SlowSuccessExact`, `BackupPruning.SlowBackupLosesAll`).

## Model

| member | source | states |
|---|---|---|
| ShellQuoting.RoundTrip | apps/tronfire/backend/src/shell.js:72-80 | for a list of arbitrary strings, splitting the quoted command by the POSIX rules gives back exactly that list, if and only if the list is not empty |
| ShellQuoting.HostRunsSameArgv | apps/tronfire/backend/src/shell.js:135-148 | the script sent to the host reads as one comment line and one simple command whose words are the argv the direct path runs |
| ShellQuoting.ShellFormUnchanged | apps/tronfire/worker/src/worker.js:166-170 | a command in the sh -lc form is its script byte for byte, whatever follows it in the list |
| ShellQuoting.ShQuoteInjective | apps/tronfire/worker/src/worker.js:312-314 | two values have the same quoted form exactly when they are equal |
| ShellQuoting.ReadEscaped | apps/tronfire/backend/src/shell.js:72-74 | inside single quotes the escaped text of any value is read back as that value, then the quote closes |
| ShellQuoting.ReadJoined | apps/tronfire/backend/src/shell.js:76-80 | the joined quoted list reads as its words in order, up to the end of input or line |
| Heartbeats.LocalStore.EnqueueHeartbeat | agent-windows/Infrastructure/LocalStore.cs:40-48 | the row goes to the end of the queue under the next id |
| Heartbeats.LocalStore.GetQueuedHeartbeats | agent-windows/Infrastructure/LocalStore.cs:50-63 | at most `limit` rows, the oldest, in order |
| Heartbeats.LocalStore.DeleteQueuedHeartbeat | agent-windows/Infrastructure/LocalStore.cs:65-72 | every row with that id goes, the others stay in order |
| Heartbeats.AgentWorker.FlushQueue | agent-windows/Services/AgentWorker.cs:129-142 | the loop does what the recursive account of a flush says, for every pattern of accepted, rejected and cut-off sends |
| Heartbeats.AgentWorker.TickAsync | agent-windows/Services/AgentWorker.cs:66-85 | flush, send, alerts, and the payload enqueued exactly when the send or an alert threw |
| Heartbeats.DeleteHead | agent-windows/Infrastructure/LocalStore.cs:65-72 | in a reachable queue, deleting the head by id removes that one row and nothing else |
| Heartbeats.FlushKeeps | agent-windows/Services/AgentWorker.cs:129-142 | a flush keeps conservation and order and sends no more rows than it read |
| Heartbeats.TickKeeps | agent-windows/Services/AgentWorker.cs:66-85 | a tick keeps them, enqueues at most one row, sends at most 20 queued rows and at most one payload directly |
| Heartbeats.QueueConserved | agent-windows/Services/AgentWorker.cs:66-142 | over any run: enqueued = removed followed by queue; a removed document was received; apart from repeats the server takes the rows in enqueue order, at most the head ahead of its deletion |
| Heartbeats.RemovedWereReceived | agent-windows/Services/AgentWorker.cs:129-142 | in any run from an empty table every removed row was received, the null branch notwithstanding |
| Heartbeats.FlushFinishes | agent-windows/Services/AgentWorker.cs:129-142 | a flush of documents finishes if and only if each of its sends is accepted |
| Heartbeats.FlushExactly | agent-windows/Services/AgentWorker.cs:129-142 | from a reachable queue whose first m documents are accepted and no more: those m leave the queue in order, the next is received at most, it finishes if and only if they were all, and no reply further is used |
| Heartbeats.FlushOdd | agent-windows/Services/AgentWorker.cs:129-142 | a row holding the JSON null is deleted without a send; one that does not parse ends the flush and stays |
| Heartbeats.TickExactly | agent-windows/Services/AgentWorker.cs:66-85 | after any run: the payload becomes the last queued row if and only if the tick is paired, all rows ahead are accepted, and its send is refused or, after an accepted send, an alert is refused before any other reply than acceptances; it is on the server directly if and only if that send reached it |
| Heartbeats.TickPayloadKept | agent-windows/Services/AgentWorker.cs:66-85 | after any run, a tick that is not cut short has its own payload sent or enqueued if and only if it is paired and each of the first min(20, queue length) replies is an acceptance |
| Heartbeats.SecondPayloadLost | agent-windows/Services/AgentWorker.cs:71-84 | concrete run: with one row queued and the server refusing it, the payload of the tick is neither sent nor enqueued |
| ProbeCache.AsyncProbeCache.constructor | apps/tronfire/backend/src/async-probe-cache.js:2-7 | empty maps; 0 <= ttlMs <= staleMs, each as given where the option is a usable number |
| ProbeCache.AsyncProbeCache.Get | apps/tronfire/backend/src/async-probe-cache.js:9-29 | a hit if and only if the read is not forced and the entry is younger than ttlMs, else a join of the load in flight, else a new load; only a new load changes inFlight |
| ProbeCache.AsyncProbeCache.OnFulfilled | apps/tronfire/backend/src/async-probe-cache.js:19-22 | stores the value with the time of its arrival |
| ProbeCache.AsyncProbeCache.OnFinally | apps/tronfire/backend/src/async-probe-cache.js:23-25 | forgets the load if it is still the one in flight for its key |
| ProbeCache.AsyncProbeCache.OnRejected | apps/tronfire/backend/src/async-probe-cache.js:31-39 | a stale value exactly where the caller allows it and the entry is young enough |
| ProbeCache.AsyncProbeCache.Invalidate | apps/tronfire/backend/src/async-probe-cache.js:41-44 | drops one entry or all, never a load in flight |
| ProbeCache.OneLoadPerKey | apps/tronfire/backend/src/async-probe-cache.js:14-28 | in every run: two loads of one key are never both unsettled, every unanswered caller waits on a load of its key, the identity test in finally always holds |
| ProbeCache.AnsweredOnce | apps/tronfire/backend/src/async-probe-cache.js:28-39 | a reply never changes, is given only after the awaited load closed, and a waiter of a closed load is answered by its next turn |
| ProbeCache.AnswersJustified | apps/tronfire/backend/src/async-probe-cache.js:9-39 | in every run every answer is a hit stored less than ttlMs ago and not invalidated since, the result of the awaited load that closed after the call, or, with allowStale and after that load failed, a value less than staleMs old and not invalidated since; otherwise the load's error |
| ProbeCache.GetExactly | apps/tronfire/backend/src/async-probe-cache.js:9-29 | in every run a caller is answered at once if and only if it does not force the read and the latest stored value of its key has not been invalidated since and was stored less than ttlMs ago; it gets that value and no load begins. Otherwise it waits on the open load of its key, and a load begins if and only if there is none |
| ProbeCache.AgesExactly | apps/tronfire/backend/src/async-probe-cache.js:12-12 | a stored value becomes too old by the time that passes and by nothing else |
| ProbeCache.ForcedNeverFromEntry | apps/tronfire/backend/src/async-probe-cache.js:9-12 | in no run is a forced caller answered from an entry |
| ProbeCache.AnswerExactly | apps/tronfire/backend/src/async-probe-cache.js:28-39 | in every run a caller whose load is closed gets its value; where it failed, the latest stored value of the key, not invalidated since and less than staleMs old, if it allows stale values; otherwise the error |
| ProbeCache.InvalidateExact | apps/tronfire/backend/src/async-probe-cache.js:19-44 | after any run, some continuation gives a later caller a value stored before an invalidation if and only if a load of the key stands between its store and its finally callback |
| ProbeCache.OvertakenExactly | apps/tronfire/backend/src/async-probe-cache.js:14-44 | after any run, some continuation answers a caller that comes after an invalidation from a load begun before it if and only if a load of the key is in flight at the invalidation |
| ProbeCache.OldValueOnlyFromGap | apps/tronfire/backend/src/async-probe-cache.js:19-44 | an old value reaching a later caller implies such a load |
| ProbeCache.GapReturnsOldValue | apps/tronfire/backend/src/async-probe-cache.js:14-29 | with such a load, a caller that joins it receives the old value |
| RoutineLocks.Worker.ActiveRoutineLock | apps/tronfire/worker/src/worker.js:769-775 | the lock if younger than an hour; a lapsed one is deleted |
| RoutineLocks.Worker.FirebirdCircuitOpen | apps/tronfire/worker/src/worker.js:698-706 | open exactly until the cooldown ends |
| RoutineLocks.Worker.Enter | apps/tronfire/worker/src/worker.js:781-807 | granted if neither lock is held and the breaker is closed; then both entries are set; also the guards of runBackup (1493-1509) |
| RoutineLocks.Worker.ClearDatabaseRoutineLock | apps/tronfire/worker/src/worker.js:787-792 | the global and the database's entry go where they carry the routine's name |
| RoutineLocks.Worker.MarkFirebirdSuccess | apps/tronfire/worker/src/worker.js:725-730 | the database's breaker is dropped, no other |
| RoutineLocks.Worker.MarkFirebirdFailure | apps/tronfire/worker/src/worker.js:732-753 | nothing in the grace period; otherwise one more failure, stored at once or, when it trips, only after the writes that are awaited first |
| RoutineLocks.OneYoungRoutine | apps/tronfire/worker/src/worker.js:769-818 | in every run, routines of any length and their overlaps included: no two in progress are younger than an hour, no two have the same name, and every lock entry was set by a routine still in progress; only database checks, which no flag serialises, are taken to be younger than an hour whenever another begins |
| RoutineLocks.StepOwned | apps/tronfire/worker/src/worker.js:769-818 | every step keeps that, and that a routine younger than an hour has both its entries |
| RoutineLocks.MutualExclusion | apps/tronfire/worker/src/worker.js:769-818 | in every run in which routines in progress are younger than an hour whenever another tries to start, at most one runs across all databases and the lock table holds its two entries and nothing else |
| RoutineLocks.GrantedExactly | apps/tronfire/worker/src/worker.js:794-807 | in any state of those runs a routine is let in if and only if none of its name is in progress under its flag, the breaker is closed and nothing in progress is younger than an hour |
| RoutineLocks.EnteredExactly | apps/tronfire/worker/src/worker.js:769-807 | a routine is let in if and only if neither the global nor its database's lock is younger than an hour and the breaker's cooldown is over or none is on; it then stands in both entries, and nothing but lapsed entries of these two is ever dropped |
| RoutineLocks.LeaveOwnOnly | apps/tronfire/worker/src/worker.js:787-792 | in any state of those runs clearing by name removes exactly the entries the finisher itself set, and no other |
| RoutineLocks.LongSweepOverlapped | apps/tronfire/worker/src/worker.js:1720-1722 | concrete run: beside a sweep of an hour the session collector runs, and after it a backup of the very database being swept |
| RoutineLocks.OpenMeansRecentTrip | apps/tronfire/worker/src/worker.js:732-753 | in every run, overlaps included, an open breaker has a failure of its database less than one cooldown ago that was a timeout, or a connectivity failure whose record had reached the threshold |
| RoutineLocks.FailureExactly | apps/tronfire/worker/src/worker.js:732-753 | a failure outside the grace period trips the breaker if and only if it is a timeout or the connectivity failure that brings the count to the threshold; the record is then stored one step later, otherwise at once and without a cooldown of its own |
| RoutineLocks.TripHoldsExactly | apps/tronfire/worker/src/worker.js:698-706 | a stored trip keeps every routine from its database exactly until the cooldown has passed |
| RoutineLocks.EndExactly | apps/tronfire/worker/src/worker.js:725-815 | every other end: a success drops the breaker of its database unless it is of a backup that was not validated; deferral, failed validation and failures in the grace period change none |
| RoutineLocks.OpenSinceLastSuccess | apps/tronfire/worker/src/worker.js:725-753 | in every run, overlaps included, in which no success of a database is marked while a record of it waits to be stored: an open breaker has such a failure since the last success of the database, and if it was no timeout at least the threshold number of failures had been counted since that success |
| RoutineLocks.SettledExactly | apps/tronfire/worker/src/worker.js:732-753 | that condition is exact: after any such run a success opens the way, by a run that meets it, to a breaker open without such a failure if and only if a record of the database waits that is not past its cooldown, or any record waits and the threshold is more than one |
| RoutineLocks.TrippedSinceSuccess | apps/tronfire/worker/src/worker.js:725-753 | in every run in which no success is marked while a record waits that would open the breaker, an open breaker was tripped since the last success |
| RoutineLocks.SuccessExactly | apps/tronfire/worker/src/worker.js:732-753 | after any such run a success opens the way to a breaker open with no trip since it if and only if a tripping record of that database, not yet past its cooldown, waits to be stored |
| RoutineLocks.SuccessBeforeStore | apps/tronfire/worker/src/worker.js:740-752 | concrete run: a sweep of an hour fails by a timeout, the session collector succeeds while the alert is written, and the stored record opens the breaker |
| RoutineLocks.TimelyMeansSettled | apps/tronfire/worker/src/worker.js:794-818 | runs in which routines do not overlap meet the condition |
| RoutineLocks.NoStartWhileOpen | apps/tronfire/worker/src/worker.js:794-807 | in any state, the only step that adds a routine is an entry for a database whose breaker is closed |
| RoutineLocks.BreakerUntouched | apps/tronfire/worker/src/worker.js:809-815 | an unsuccessful end leaves every breaker and count unchanged if and only if it is a deferred probe, in the grace period, or a validation failure |
| BackupPruning.BackupCleanupCandidates | apps/tronfire/backend/src/server.js:428-464 | the loop with its `kept` map yields the candidates in the order of the rows, with the number to keep taken from the request as the code normalizes it |
| BackupPruning.CandidateHasEarlier | apps/tronfire/backend/src/server.js:441-447 | with a number to keep above zero, every candidate stands behind an earlier row of its database |
| BackupPruning.CandidatesExactly | apps/tronfire/backend/src/server.js:421-464 | for every answer of the query and every number to keep, fractions, infinity and not-a-number included: a row is a candidate if and only if it was asked for, its path is managed, and the newer rows of its database that were asked for are at least as many as the number to keep |
| BackupPruning.CandidatesSuperseded | apps/tronfire/backend/src/server.js:428-464 | so every candidate has a newer successful backup of its database, whatever the cutoff and the database filter |
| BackupPruning.KeepExact | apps/tronfire/backend/src/server.js:421-447 | a cleanup can list a newest successful backup if and only if the normalized number to keep is not a number above zero |
| BackupPruning.BackupTable.CleanupRetention | apps/tronfire/worker/src/worker.js:1611-1634 | run on its own it removes, with their files, exactly the successes older than the retention except the latest, and changes no other row |
| BackupPruning.BackupTable.FindLatestSuccess | apps/tronfire/worker/src/worker.js:1614-1617 | the newest success of the database, none only if there is none |
| BackupPruning.BackupTable.FindOldJobs | apps/tronfire/worker/src/worker.js:1618-1626 | exactly the successes before the cutoff other than the latest, each once |
| BackupPruning.RetentionDaysExactly | apps/tronfire/worker/src/worker.js:85-89 | the retention is the nearest number of days from 1 to 10080, or the default where none is set |
| BackupPruning.RetentionAlone | apps/tronfire/worker/src/worker.js:1611-1634 | in the state machine a retention run with nothing in between removes exactly the successes of its database that are older than the retention and not the latest |
| BackupPruning.StepKeeps | apps/tronfire/backend/src/server.js:2547-2560 | every step of either deleter, of a backup and every safe demotion keeps: whatever is waiting to be deleted, has lost its file or may still be listed by retention has a newer successful backup |
| BackupPruning.NewestSurvives | apps/tronfire/backend/src/server.js:2547-2560 | no step removes a newest successful backup, neither row nor file, unless it demotes that very row |
| BackupPruning.PromptBackupsNeverLost | apps/tronfire/worker/src/worker.js:1611-1634 | in every run of any number of retentions, cleanups that keep at least one, backups that finish within a day, and safe demotions, a database that has a successful backup at some point has one, with its file, at every later point |
| BackupPruning.BackupNeverLost | apps/tronfire/worker/src/worker.js:1611-1634 | the same, where no backup becomes the newest while a retention run between its reads already counts it as old |
| BackupPruning.DemotionExactly | apps/tronfire/worker/src/worker.js:1567-1596 | a demotion of a successful backup keeps everything endangered superseded if and only if it is not the only newer success of a row that is listed, about to be listed, or without its file |
| BackupPruning.DemotionLosesAll | apps/tronfire/backend/src/server.js:2524-2560 | concrete run from an empty table: a cleanup lists the older backup, the newer is demoted, and the database is left with none |
| BackupPruning.PromptMeansAllowed | apps/tronfire/worker/src/worker.js:1612-1626 | that cannot happen to a backup that finishes within a day, because retentions look back at least a day |
| BackupPruning.SlowSuccessExact | apps/tronfire/worker/src/worker.js:1613-1626 | a backup's success opens the way to a newest backup being deleted if and only if it is newer than every success while a retention run between its two reads already counts it as old |
| BackupPruning.SlowBackupLosesAll | apps/tronfire/worker/src/worker.js:1613-1632 | concrete run from an empty table: a backup that outlasts its retention and both deleters leave a database with no backup |
| SessionHistory.SessionCollector.BeginCollection | apps/tronfire/worker/src/worker.js:383-387 | a collection begins if and only if the node serves, none is running and the interval is over; only then the time and the flag are set |
| SessionHistory.SessionCollector.Collect | apps/tronfire/worker/src/worker.js:389-483 | a skipped, deferred or failed probe changes no row; an answered one makes the writes in order up to the first that throws; the flag is cleared in any case |
| SessionHistory.UpsertOpens | apps/tronfire/worker/src/worker.js:415-448 | observed keys end up open, seen now and first seen as before; every other row is as it was |
| SessionHistory.PartExactly | apps/tronfire/worker/src/worker.js:415-448 | a collection broken off among its upserts leaves the sessions written open with the details last observed and the first time they were seen, and every other row untouched |
| SessionHistory.CollectionExactly | apps/tronfire/worker/src/worker.js:415-463 | one that comes to its end: observed sessions are open with their last details, the database's other open rows are closed now, closed ones keep their time, and exactly the rows not seen for 30 days are removed |
| SessionHistory.RunKeepsRows | apps/tronfire/worker/src/worker.js:409-467 | in every run, collections breaking off after any write included: firstSeenAt <= lastSeenAt, and a closed row's disconnect time is not before lastSeenAt |
| SessionHistory.OpenAreObserved | apps/tronfire/worker/src/worker.js:415-463 | after a completed collection the open rows of that database are exactly the observed sessions |
| SessionHistory.OpenRowRemovedExactly | apps/tronfire/worker/src/worker.js:459-463 | retention removes an open row if and only if it is of another database and was not seen for 30 days |
| SessionHistory.OtherDatabaseLosesOpenRow | apps/tronfire/worker/src/worker.js:390-463 | concrete run in which an open session of one database disappears because another was the one collected |
| SweepRetry.SweepScheduler.ScheduleSweepRetry | apps/tronfire/worker/src/worker.js:1733-1747 | one timer and one count more, unless inactive, pending or at the maximum |
| SweepRetry.SweepScheduler.ResetScheduledSweepRetries | apps/tronfire/worker/src/worker.js:1805-1811 | counter and timer are cleared |
| SweepRetry.SweepScheduler.BeginScheduledSweeps | apps/tronfire/worker/src/worker.js:1749-1766 | the pass begins exactly if active, none runs and neither backup nor HA sync does; those two schedule a retry |
| SweepRetry.SweepScheduler.FinishScheduledSweeps | apps/tronfire/worker/src/worker.js:1768-1803 | a pass with a postponed database schedules a retry and is not completed; a completed pass of the cron clears the counter |
| SweepRetry.StepKeeps | apps/tronfire/worker/src/worker.js:1733-1819 | every step keeps the invariant of counter, timer and pass |
| SweepRetry.RetriesBounded | apps/tronfire/worker/src/worker.js:1733-1819 | in every run, between two cron firings: passes never overlap, no timer is pending while one runs, the retries scheduled equal the counter and never exceed the maximum, and at most one more pass than that begins |
| SweepRetry.BeginsExactly | apps/tronfire/worker/src/worker.js:1749-1819 | a cron firing or a due timer begins a pass if and only if sweeps are on, none runs, and neither a backup nor the HA sync does; the latter two schedule a retry where the maximum allows one |
| SweepRetry.EndsExactly | apps/tronfire/worker/src/worker.js:1768-1803 | a postponed pass schedules a retry where the maximum allows, a completed pass of the cron clears the counter, one that throws leaves both alone |
| SweepRetry.PostponedIsRetried | apps/tronfire/worker/src/worker.js:1788-1797 | after a postponed pass a timer is pending if and only if the maximum is not reached |
| Validation.ValidationPeriodStart | apps/tronfire/worker/src/worker.js:1285-1297 | the loop computes the minimum-offset day |
| Validation.PeriodStartIsLatest | apps/tronfire/worker/src/worker.js:1285-1297 | that day is the latest not after the date whose weekday is allowed, at most six days back |
| Validation.PeriodStartMonotone | apps/tronfire/worker/src/worker.js:1285-1301 | period starts are monotone in the date, never after it, and idempotent |
| Validation.WindowMinutesExact | apps/tronfire/worker/src/worker.js:1224-1241 | for every start and end, over midnight or not, the minutes of a day accepted as inside are as many as windowMinutes reports |
| Validation.LatestValidatedBackup | apps/tronfire/worker/src/worker.js:1329-1340 | the loop over the limited query finds the newest validated backup among the rows it returns |
| Validation.LatestSeenExactly | apps/tronfire/worker/src/worker.js:1329-1340 | the limited query shows the last validated backup if and only if fewer than the limit of successes came after it |
| Validation.FailureSeenExactly | apps/tronfire/worker/src/worker.js:1360-1372 | the limited query shows a failed validation if and only if one since then has fewer than the limit of failures after it |
| Validation.ClockExactly | apps/tronfire/worker/src/worker.js:1224-1231 | days of 24 hours, minutes of 60 seconds, weekdays in a cycle of seven from a Thursday |
| Validation.PlanExactly | apps/tronfire/worker/src/worker.js:1374-1417 | in window mode the answer is the first that applies of wrong weekday, outside the window, validated this period, failed in this window, due, each stated on the rows, the minute and the days |
| Validation.BackupValidationPlan | apps/tronfire/worker/src/worker.js:1374-1417 | the branches of the plan in the order of the code, computed from the rows its two limited queries return |
| Validation.DueExactly | apps/tronfire/worker/src/worker.js:1374-1417 | a backup is validated always or never as those modes say, and in window mode if and only if weekday and minute are right, no failed validation of the window stands among its last ten failures, and among the last 80 successes that are there with their manifest the newest validated one, if any, is of an earlier period; the periods are stated as the last allowed day not after today and not after the day the window began |
| Validation.FailureBlocks | apps/tronfire/worker/src/worker.js:1360-1405 | after a failed validation no plan of the same window validates again while fewer than ten later backups failed, unless the period has a validated backup in view, which stops it too |
| Validation.BeginsExactly | apps/tronfire/worker/src/worker.js:1515-1540 | a backup of the worker begins with a running row and, over the rows that then stand, is validated if and only if the plan says so |
| Validation.EndsExactly | apps/tronfire/worker/src/worker.js:1538-1596 | a passed validation is recorded with its time, a backup without one as not validated, a failure with whether it was about the validation |
| Validation.OthersExactly | apps/tronfire/backend/src/server.js:2458-2560 | manual backups end without a validation, maintenances with their own, and a removed manifest or row leaves its place in the order |
| Validation.StepKeeps | apps/tronfire/worker/src/worker.js:1538-1571 | every step of worker backups, manual backups, automatic maintenances and deletions keeps the worker's validations in later periods than those known when they were planned |
| Validation.OneValidationPerPeriod | apps/tronfire/worker/src/worker.js:1374-1417 | in every run of worker backups, manual backups, maintenances and deletions in which the plan can see the last validated backup (it is there with its manifest, was validated last, and fewer than 80 successes follow it), the worker validates none in a period in which it validated one before, or in which one of any origin was on record before its plan |
| Validation.WorkerValidatesOncePerPeriod | apps/tronfire/worker/src/worker.js:1374-1417 | in every run of worker backups in which fewer than 80 successes follow the last validated one whenever a plan is made, at most one backup of a period is validated |
| Validation.DueMeansNewPeriod | apps/tronfire/worker/src/worker.js:1394-1405 | with the last validated backup in view, a validation is due only if every backup ever validated, whatever its origin, was of an earlier period |
| Validation.ApartExactly | apps/tronfire/backend/src/server.js:2458-2467 | a step makes two validated backups of one period if and only if a maintenance of a period that has one ends, or the worker records one although a maintenance of that period was recorded since its plan |
| Validation.LostManifestRepeats | apps/tronfire/backend/src/server.js:2547-2560 | concrete run: after a manual backup the cleanup removes the validated one, manifest first, and the worker validates again the same day |
| Validation.MaintenanceRepeats | apps/tronfire/backend/src/server.js:2458-2467 | concrete run: a maintenance validates its backup on the day of the worker's validation |
| BackupSchedule.ManagedDatabases.RunAutomaticBackups | apps/tronfire/worker/src/worker.js:1636-1672 | one pass writes the attempt time of exactly the databases that get past the guards and were never backed up, tried or scheduled, or had all three at least their frequency ago by its single clock reading |
| BackupSchedule.DueExactly | apps/tronfire/worker/src/worker.js:1659-1667 | a database is due if and only if its three times are all missing or each lies at least the frequency back, in minutes as set but between 1 and 10080, or the default |
| BackupSchedule.PassReadsAll | apps/tronfire/worker/src/worker.js:1645-1649 | a pass comes to every database it read, in order, each with its row as read |
| BackupSchedule.PassStartsExactly | apps/tronfire/worker/src/worker.js:1659-1668 | in the machine a pass that comes to a database and gets past the guards starts its backup and writes the attempt time if and only if that holds of the row as read |
| BackupSchedule.FinishExactly | apps/tronfire/worker/src/worker.js:1566-1566 | a backup that succeeds writes the time it ended, a failed one does not, and the pass goes on |
| BackupSchedule.StepKeeps | apps/tronfire/worker/src/worker.js:1645-1667 | what a pass has read of the databases still to come stays current in the attempt time, whatever else is written |
| BackupSchedule.StartsFrequencyApart | apps/tronfire/worker/src/worker.js:1659-1667 | in every run, with edits, manual backups, failing writes and crashes anywhere, two successive automatic starts of one database are at least the frequency judged for the later one apart |
| Reservation.ManagedDatabases.FindFirst | apps/tronfire/backend/src/restore-upload-policy.js:11-23 | a row prepared under the token, none only if there is none |
| Reservation.ManagedDatabases.ReleasePreparedRestore | apps/tronfire/backend/src/restore-upload-policy.js:20-33 | releases one row prepared under the token, or changes nothing where there is none |
| Reservation.ManagedDatabases.ClaimPreparedRestore | apps/tronfire/backend/src/restore-upload-policy.js:35-40 | succeeds if and only if the row is prepared under the token, and changes that row only |
| Reservation.OneWinner | apps/tronfire/backend/src/restore-upload-policy.js:20-40 | for any interleaving of claims and prepared-releases of one token and foreign writes, each read and each update a step, at most one call succeeds |
| Reservation.WinnerStays | apps/tronfire/backend/src/restore-upload-policy.js:20-40 | once one has succeeded, no further claim or release of the token alters a row or succeeds |
| Reservation.WonExactly | apps/tronfire/backend/src/restore-upload-policy.js:20-40 | while only claims and prepared-releases of the token write, one has succeeded if and only if the row no longer waits for its upload, and until then no row has changed |
| Reservation.AloneExactly | apps/tronfire/backend/src/restore-upload-policy.js:11-40 | a claim, or a find and its release, with nothing in between succeeds if and only if the row waits for its upload under the token, and what it makes of the row |
| Reservation.SecondClaimExactly | apps/tronfire/backend/src/restore-upload-policy.js:35-40 | a second claim succeeds if and only if the first left the preparation message in place |
| Reservation.DatabaseRow.ClearExpiredDatabaseOperation | apps/tronfire/backend/src/server.js:1279-1294 | the row becomes idle exactly if it is a running reservation past its expiry |
| Reservation.DatabaseRow.AcquireDatabaseOperationLock | apps/tronfire/backend/src/server.js:1338-1431 | with nothing in between, it succeeds if and only if the row is an active preparation claimed with its token, an active reservation of another kind refreshed with its token, or is not active and no backup runs; the row is then the caller's reservation for six hours, otherwise at most an expired one was cleared |
| Reservation.DatabaseRow.Release | apps/tronfire/backend/src/server.js:1439-1454 | the row becomes idle exactly if it still carries the handle's token |
| Reservation.AcquireAtOnce | apps/tronfire/backend/src/server.js:1338-1431 | an acquire taken as one step is a run of read and writes of the state machine in which every write finds the row as read, and it ends with the caller's reservation |
| Reservation.AdmittedExactly | apps/tronfire/backend/src/server.js:1338-1425 | an acquire gets past its read if and only if the row is not running or past its expiry, and clears it first in that case |
| Reservation.JudgedExactly | apps/tronfire/worker/src/worker.js:295-310 | a row that was read is cleared later if and only if it was running and its expiry has come by then |
| Reservation.GivenUpExactly | apps/tronfire/backend/src/server.js:1384-1403 | a caller refused by a running backup, or dead, writes nothing later |
| Reservation.ReleaseAtOnce | apps/tronfire/backend/src/server.js:1439-1454 | a release that runs alone makes the row idle if and only if it still carries the handle's token |
| Reservation.ConditionalExactly | apps/tronfire/backend/src/restore-upload-policy.js:11-40 | as steps of the machine, a claim takes a preparation over for six hours and a prepared release makes it idle, each exactly where the row is prepared under the token; the handle that prepared it ends |
| Reservation.WriteExact | apps/tronfire/backend/src/server.js:1426-1454 | a write by id keeps the reservation exclusive if and only if no live handle stands on the row but the releasing one |
| Reservation.SteadyWriteKeeps | apps/tronfire/backend/src/server.js:1279-1294 | a write that finds the row as it was read keeps it exclusive |
| Reservation.OneOwner | apps/tronfire/backend/src/server.js:1258-1473 | in every run in which writes by id find the row as read (of which atomic acquire, clear and release are a special case), at most one handle is live and the row is its unexpired reservation |
| Reservation.LostHandleHarmless | apps/tronfire/backend/src/server.js:1439-1454 | a handle whose row has a new owner changes nothing when it releases |
| Reservation.StaleClearAdmitsTwo | apps/tronfire/worker/src/worker.js:295-310 | concrete run: the worker reads a reservation while it is unexpired, judges that row after it was released and replaced, clears the new one by id, and a third caller is let in beside its owner |
| FileScripts.DisciplineSound | apps/tronfire/backend/src/server.js:2670-2695 | every run, failing or stopped at any step, of any script that obeys the static discipline leaves the target present, complete, and the original or a checked replacement, with a complete copy of the original saved where needed |
| FileScripts.StepSound | apps/tronfire/backend/src/server.js:2670-2695 | one allowed step, however it turns out, keeps that |
| FileScripts.BrokenExactly | apps/tronfire/backend/src/server.js:2670-2695 | what a failing step leaves: nothing changed if it had no effect; else an incomplete, unchecked file where it wrote or copied, the edit where it changed a file in place, the files removed so far; a rename leaves all as it was |
| FileScripts.DisableIndexesSafe | apps/tronfire/backend/src/server.js:2250-2292 | disable-indexes, its EXIT trap included: the production file is never absent or partial, and the safety path holds the untouched original whenever more than gfix -online was done; a finished run has replaced it by a checked file |
| FileScripts.AutoMaintenanceSafe | apps/tronfire/backend/src/server.js:2414-2451 | auto-maintenance: the same, and the copy is of the untouched original |
| FileScripts.MaintenanceEnds | apps/tronfire/backend/src/server.js:2250-2451 | each of the two finishes if and only if the database is there and every one of its 19 steps is done but for the gfix calls with a tolerated failure: both -shut, -online, and in auto-maintenance -mend |
| FileScripts.MaintenanceFinishes | apps/tronfire/backend/src/server.js:2250-2451 | where the database is there and nothing fails, both finish with a target whose last edit is gfix -online and no temporary file, whatever is left over from before |
| FileScripts.FromUploadSafe | apps/tronfire/backend/src/server.js:2670-2695 | from-upload, for an existing or a new target, a compressed or a plain source: the production file is never absent or partial, and the safety path holds the original, or what gfix -shut made of it, whenever more was done than gfix -shut |
| FileScripts.FromUploadExactly | apps/tronfire/backend/src/server.js:2670-2695 | the strict safety of auto-maintenance holds of a run of from-upload if and only if there was no target or gfix -shut, judged by the outcomes of the steps, did not change it |
| FileScripts.CopyMissingExactly | apps/tronfire/backend/src/server.js:2688-2689 | the original has been changed and no complete copy of it exists exactly while the run is stopped between a gfix -shut that took effect and the end of the cp |
| FileScripts.ShutBeforeCopy | apps/tronfire/backend/src/server.js:2688-2689 | concrete run in which from-upload has changed the target and has no copy yet |
| FileScripts.StandbyRestoreSafe | apps/tronfire/backend/src/server.js:2796-2820 | the standby file is never absent or partial, is the old one or a checked restore |
| FileScripts.RestoresEnd | apps/tronfire/backend/src/server.js:2670-2820 | from-upload and the standby restore finish if and only if the source is there and every step is done but for removing the unpacked backup and their tolerated gfix calls |
| FileScripts.RestoresFinish | apps/tronfire/backend/src/server.js:2670-2820 | where the source is there and nothing fails, from-upload finishes with a target brought online last and the standby restore with one set read only last |
| FileScripts.PhysicalRestoreSafe | apps/tronfire/backend/src/server.js:2884-2899 | every run leaves the standby file present and complete if and only if the received file, if it is there, is complete |
| FileScripts.WholeRestoreSafe | apps/tronfire/backend/src/server.js:2884-2899 | for a complete received file, a finished run has also replaced the standby file by it, checked |
| FileScripts.PhysicalEnds | apps/tronfire/backend/src/server.js:2884-2899 | the physical restore finishes if and only if the received file is there and every step is done but for gfix -mode read_only |
| FileScripts.PhysicalFinishes | apps/tronfire/backend/src/server.js:2884-2899 | where the received file is there and nothing fails, the script finishes with it set read only |
| Promotion.Host.PromoteAll | apps/tronfire/backend/src/server.js:2981-3015 | the loop stops at the first failing database and returns how many were promoted before it, as the recursive account says; `PromotedAllExactly` says which one that is |
| Promotion.BodyRun | apps/tronfire/backend/src/server.js:2997-3001 | a body failing or stopped at any step touches its own database only, loses neither of its files, and promotes it if it finishes |
| Promotion.RestartExactly | apps/tronfire/backend/src/server.js:2993-3006 | running the commands one by one with the EXIT trap, however the script ends, the service is started as often as it was stopped if and only if the script was not killed between stopping and restarting it |
| Promotion.PromotedExactly | apps/tronfire/backend/src/server.js:2984-3013 | a database counts as promoted if and only if it was prepared, its standby file is there, the service did not fail to stop, every step of the body is done, the database is no longer read only, the script was not killed and the row was written |
| Promotion.PromotedAllExactly | apps/tronfire/backend/src/server.js:2981-3015 | for any list, the number promoted is the index of the first database that does not meet this |
| Promotion.TurnEffect | apps/tronfire/backend/src/server.js:2984-3013 | one database's turn does the same, and unless killed starts the service as often as it stopped it |
| Promotion.PromotionConserves | apps/tronfire/backend/src/server.js:2981-3015 | for any list and a failure at any step: databases before the failing one are fully promoted, it has both its files, all others are untouched, and unless a script was killed every stop of the service was followed by a start |

## Left out

- User interface, HTTP routing, sessions, Docker, SSH, external uploads, metrics, disk and index alerts: plumbing over libraries, or code with no property over whole runs.
- What gbak, gfix, gstat, isql and nbackup compute: each is a step that succeeds or fails, and gstat marks a content as checked.
- Classification of error texts, parsing of clock times and weekday lists, primary and HA-sync checks, the post-restore grace check: their results are parameters of the events.
- Daylight saving: local time is milliseconds in days of 24 hours.
- SHA-256 of session keys is taken to be injective and operation tokens to be fresh.
- Steps of the scripts that touch none of the modelled files (echo, mkdir, sha256sum, stat): their failure is a stop between two modelled steps.
- Heartbeats.AgentWorker.TickAsync: local SQLite and file writes succeed; building the payload and pairing with the central server are one outcome, paired or not.
- RoutineLocks.OneYoungRoutine: database checks are taken to be younger than an hour whenever another begins; their tools time out after at most 20 minutes.
- BackupPruning.PromptBackupsNeverLost: assumes distinct creation times within a database, and that a backup is not demoted while a deleter relies on it or as the only one. The sweeps that turn stale RUNNING rows into FAILED are failing ends of a backup, which may still succeed later; that the worker's sweep also moves the file to quarantine is not modelled.
- BackupPruning.BackupNeverLost: the same assumptions; `BackupPruning.DemotionExactly` says when the one on demotions is needed.
- BackupPruning.BackupTable.CleanupRetention: every file and row deletion succeeds there; failing deletions are the SkipRow events of the state machine.
- SessionHistory: the count of failures per database and its alerts; connection snapshots.
- SweepRetry: the promise between the end of a pass and runScheduledSweepsFromCron settles in the same step, because no timer or cron callback can run between the two.
- Validation.OneValidationPerPeriod: assumes that the plan can see the last validated backup; `Validation.DueExactly` says what happens where it cannot.
- BackupSchedule.ManagedDatabases.RunAutomaticBackups: the guards between due and start are one flag per database.
- Reservation.OneOwner: assumes that writes by id find the row as it was read; without that the result is false. Its runs leave out the refresh of a reservation of another kind than RESTORE, because no route passes such a token; the previous standby status is not restored.
- FileScripts: paths of one script are distinct, mv is an atomic rename within one filesystem, a failed cp may leave a partial file, in-place tools leave a complete file, and nobody else writes.
- Promotion.PromotionConserves: the path a production file is kept at is not yet taken; a start of the service is an attempt to start it.
- A second worker process, and the cluster guard and VIP code of server.mjs, which is not part of this model.
