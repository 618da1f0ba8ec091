# Queue, scheduler and identity store: a verified model

This project models three parts of the Go service and proves what they keep under every interleaving:

- the database job queue (`internal/adapter/queue/database.go`, `database_reservation.go`): a lease-based
  work queue over three tables - jobs, locks and processed counters - with dispatchers, workers, heartbeats,
  two-phase cleanups and operator commands;
- the scheduler on top of it (`internal/scheduler/scheduler.go`), whose deterministic task IDs and minimum
  retention are to give one job per schedule and minute;
- the identity store (`internal/adapter/mysql/identity/repository.go`, `internal/auth/service.go`,
  `internal/user/*`): users, refresh tokens and verification tokens, where a service call is several reads
  followed by one transaction.

## How it is built

Each transaction is written twice. As a function from tables to tables it lives in `QueueTables` and
`IdentityTables`. As a method, statement by statement with early returns, rollbacks and loops, it lives in
the classes of `QueueStore`, `Scheduler` and `IdentityStore`, and the method's `ensures` equates the new
table contents with that function of the old ones. What the services promise is then proved about runs:
`QueueSystem` and `IdentitySystem` are state machines whose steps are those functions, in any order.

- *Runs* start from empty tables; a run is a sequence of states and enabled steps. Any number of processes
  take part; a process is only what it remembers between two accesses (a worker's copy of its row, a
  cleanup's scanned ids, a login or refresh in progress), and that is explicit state that may be stale.
- *Time* is an integer in nanoseconds that never falls. A step carries the clock readings its process took,
  which may lie anywhere before the commit.
- *Lease tokens and token identifiers* are fresh: one that was handed out is never handed out again. SHA-256
  is taken to be injective, so a lock key is its prefix and preimage and a refresh token is its own key.
- *A job handler* is only its outcome; it may run more than once. Only the table transitions are fenced.
- *Calls into libraries* are parameters: the cron parser's answers, the password comparison's verdict, the
  serialised payload, the time-zone lookup, the UUID, whether the verification message could be queued.

Modules: `Prelude`, `Clocks`, `Strings` (shared); `QueueTables`, `QueueSystem`, `QueueInvariant`,
`QueueFencing`, `QueueLocks`, `QueueTally`, `QueueConservation`, `QueueOverlap`, `QueueRetries`,
`QueueFairness`, `QueueLease`, `QueueHandout`, `QueueOrigins`, `QueueUniqueness`, `QueueOperators`,
`QueueScenarios`, `QueueTakeovers`, `QueueStore`, `RunLoop` (queue);
`Calendar`, `Scheduler`, `SchedulerOnce`, `SchedulerTick`, `SchedulerLate` (scheduler); `IdentityTables`,
`IdentitySystem`, `IdentityInvariant`, `IdentitySessions`, `IdentityAdmins`, `IdentityAccounts`, `IdentityStore`
(identity).
`dafny verify dfyconfig.toml` checks everything.

## Where the code does less than one might expect

- *Duplicates per schedule and minute.* README.md:267 of the repository says that deterministic IDs prevent
  duplicate dispatches for the same schedule and minute. The code guarantees it until two minutes after the
  minute (`SchedulerOnce.AtMostOncePerScheduleAndMinute`). From that instant on a late scheduler can get a
  second job accepted (`SchedulerLate.HorizonIsTight`, for every name and minute), and it does exactly when an
  operator or a cleanup removed the first one (`SchedulerLate.DispatchedAgainIffRemoved`).
- *Overlapping cleanups.* The cleanup's delete does not look at the status again, so two cleanups that
  scanned the same id can delete a fresh pending job (`QueueOverlap.OverlapLosesPendingJob`). Counting is
  conserved exactly when no delete meets a row that is not completed
  (`QueueConservation.ConservedIffNothingLost`), in particular with one cleanup in flight.
- *Retry budget.* A takeover increments `attempts` without looking at `MaxRetry`. Every budget is exceeded in
  some run (`QueueTakeovers.AnyBudgetCanBeExceeded`), and a row has more than `MaxRetry + 1` attempts exactly
  when its current cycle saw a takeover with the budget already used up (`QueueTakeovers.OverBudgetIffOverdrawn`).
- *Uniqueness keys.* Payloads are JSON and contain no raw NUL. For them a key is ambiguous exactly when the
  queue or the type contains one (`QueueLocks.JsonKeyUnambiguous`).
- *Keeping a lease.* Beats that keep time save a lease only if delay, interval and lateness stay below the
  reservation; otherwise, and always with a reservation of one second, the job can be taken over from a worker
  that did nothing wrong (`QueueTakeovers.LeaseBoundIsTight`).

## Model

| member | source | states |
|---|---|---|
| QueueStore.DatabaseDispatcher.Dispatch | internal/adapter/queue/database.go:72-136 | an unserialisable payload changes nothing; otherwise the tables after the statements are those of the dispatch transaction at the readings taken, in order, and the caller learns of a duplicate exactly when some primary key collided and everything was rolled back |
| QueueStore.DatabaseDispatcher.DropExpired | internal/adapter/queue/database.go:107-113 | only expired locks under the keys of the new expiring locks are dropped, judged at one reading inside the transaction |
| QueueStore.DatabaseDispatcher.InsertAll | internal/adapter/queue/database.go:115-129 | succeeds exactly when neither the job's id nor any lock key is present; a failure leaves the tables as before the transaction, dropped locks restored |
| QueueStore.DatabaseWorker.First | internal/adapter/queue/database_reservation.go:17-23 | returns a waiting and available, or expired active, row of the queue that no other such row precedes by available_at and created_at, and nothing only if there is none |
| QueueStore.DatabaseWorker.ReserveJob | internal/adapter/queue/database_reservation.go:13-49 | leases an earliest eligible row and hands back a local copy equal to the committed row; without one the tables stay |
| QueueStore.DatabaseWorker.HeartbeatTick | internal/adapter/queue/database.go:321-327 | extends the deadline from a reading of its own, only while the token stands on the active row |
| QueueStore.DatabaseWorker.Complete | internal/adapter/queue/database.go:331-364 | under the fence deletes or retains the row, drops the row's non-expiring lock when it deletes and counts the job once; without it changes nothing, counter included |
| QueueStore.DatabaseWorker.Fail | internal/adapter/queue/database.go:413-435 | under the fence schedules the retry, or marks the job failed when the copy's attempts exceed its budget; without it changes nothing |
| QueueStore.DatabaseWorker.Process | internal/adapter/queue/database.go:254-294 | completes only if a handler was registered, returned no error and its context had not ended; otherwise fails the job with the message of the first of these that applies |
| QueueStore.DatabaseWorker.ScanExpired | internal/adapter/queue/database.go:391-394 | returns only completed rows whose expiry has passed, at most 100, and all of them if it returns fewer |
| QueueStore.DatabaseWorker.Cleanup | internal/adapter/queue/database.go:386-411 | with nobody in between: expired locks go, then the scanned rows with their non-expiring locks; a refused lock cleanup does not stop the rest, a refused scan ends it, a refused delete rolls back |
| QueueStore.DatabaseWorker.MaybeCleanup | internal/adapter/queue/database.go:374-384 | cleans exactly when the reading has reached the next-cleanup time, which then moves 30 s past the reading |
| QueueStore.DatabaseWorker.Reserve | internal/adapter/queue/database.go:247-252 | cleans up exactly when the one reading has reached the next-cleanup time, which then moves 30 s past it, and reserves from the result at the same reading |
| QueueStore.DatabaseInspector.SumColumn | internal/adapter/queue/database.go:493-500 | the loop over the rows computes the sum of the row weights, whatever the order |
| QueueStore.DatabaseInspector.Stats | internal/adapter/queue/database.go:482-514 | reports the sums over the table at its own reading and the processed counter, zero if there is none |
| QueueStore.DatabaseInspector.Retry | internal/adapter/queue/database.go:544-556 | revives exactly the failed rows of the queue the target selects, with attempts back at zero, and reports how many |
| QueueStore.DatabaseInspector.Delete | internal/adapter/queue/database.go:558-588 | deletes exactly the selected failed rows with all their locks and reports how many |
| QueueInvariant.StepKeepsInv | internal/adapter/queue/database.go:331-435 | every step of every process keeps: active iff token and deadline set, completed iff expiry set, attempts within what the status allows, and every standing token's copy equal to its row but for the deadline |
| QueueInvariant.ReachableInv | internal/adapter/queue/database_reservation.go:25-43 | that invariant holds in every state of every run |
| QueueInvariant.UntouchedRow | internal/adapter/queue/database.go:413-435 | a row is changed only by a reservation of it, by its own fenced worker, or by an operator's retry that selects it |
| QueueInvariant.RunRemembers | internal/adapter/queue/database_reservation.go:37-40 | a worker's copy never changes after its reservation; the clock never falls |
| QueueFencing.LeaseShape | internal/adapter/queue/database_reservation.go:28-33 | in every reachable state a row is active iff it has a token iff it has a deadline, and no two rows carry the same token |
| QueueFencing.TokensIssuedOnce | internal/adapter/queue/database_reservation.go:25 | no two reservations of a run issue the same token |
| QueueFencing.TakeoverRetiresToken | internal/adapter/queue/database_reservation.go:17-33 | taking over an expired lease leaves no row with the previous token and fences the row for the new one |
| QueueFencing.FinishRetiresToken | internal/adapter/queue/database.go:331-347 | an effective completion or failure leaves no row with its token |
| QueueFencing.DeadStaysDead | internal/adapter/queue/database_reservation.go:25-33 | a token that has left its row never stands on any row again |
| QueueFencing.SupersededTokenIsInert | internal/adapter/queue/database.go:322-363 | from then on heartbeat, completion and failure under it leave jobs, locks and counters all unchanged |
| QueueFencing.AtMostOneFinish | internal/adapter/queue/database.go:331-363 | each token leads to at most one effective complete-or-fail in a run |
| QueueFencing.FinishEffectiveIffFenced | internal/adapter/queue/database.go:335-351 | a completion or failure changes the tables if and only if the fence lets it through |
| QueueFencing.CopyDecidesAsRow | internal/adapter/queue/database.go:331-364 | completing or failing from the worker's copy is the same as from the row itself, also after the job was deleted and its task ID dispatched again with other options |
| QueueLocks.AcceptsMeaning | internal/adapter/queue/database.go:106-129 | the insert succeeds iff the id is new, the task-ID lock is absent and the uniqueness lock is absent or expired at the reading in the transaction |
| QueueLocks.LocksAfterDispatch | internal/adapter/queue/database.go:598-613 | which lock stands under each key after an accepted dispatch, and that every other key is untouched |
| QueueLocks.StepKeepsPairing | internal/adapter/queue/database.go:353-408 | every step keeps non-expiring locks and live task-ID jobs in one-to-one correspondence |
| QueueLocks.TaskLocksPaired | internal/adapter/queue/database.go:391-408 | so in every reachable state, overlapping cleanups included, a non-expiring lock exists iff the task-ID job that created it does |
| QueueLocks.AcceptanceInReachableStates | internal/adapter/queue/database.go:104-129 | in runs a dispatch is accepted iff its id names no row and its uniqueness lock is free; a refused one changes nothing |
| QueueLocks.LiveTaskIdIsRefused | internal/adapter/queue/database.go:104-129 | reusing the task ID of a live job, in any status, is refused without state change |
| QueueLocks.UniqueLockLasts | internal/adapter/queue/database.go:106-113 | a uniqueness lock survives completion, retention, cleanup and other dispatches until it expires, unless an operator deletes its job |
| QueueLocks.UniqueSpacing | internal/adapter/queue/database.go:598-613 | absent an operator delete, two accepted UniqueFor dispatches of the same queue, type and payload are at least the first one's UniqueFor apart |
| QueueLocks.UniqueKeyUnambiguous | internal/adapter/queue/database.go:604-609 | over arbitrary bytes the NUL-separated key determines queue, type and payload iff none of them contains a NUL |
| QueueLocks.JsonKeyUnambiguous | internal/adapter/queue/database.go:604-609 | among JSON payloads, which contain no raw NUL, it does so iff neither queue nor type contains one |
| QueueLocks.NamedKeyInjective | internal/adapter/queue/database.go:604-609 | between NUL-free queue and type names equal keys mean equal queue, type and payload, whatever the payloads |
| QueueUniqueness.SameKeyIffNamesakes | internal/adapter/queue/database.go:598-613 | for NUL-free names two dispatches have the same uniqueness key iff they have the same queue, type and payload |
| QueueUniqueness.UniqueLockHasDispatch | internal/adapter/queue/database.go:598-613 | every uniqueness lock of a reachable state was put down by an accepted dispatch, with its id and expiry |
| QueueUniqueness.RefusedOnlyByNamesake | internal/adapter/queue/database.go:104-129 | a dispatch under a new id is refused only if it asks for uniqueness and an earlier accepted one of the same queue, type and payload asked for it beyond the reading |
| QueueUniqueness.NamesakeRefuses | internal/adapter/queue/database.go:104-129 | while such a namesake's job is not deleted by an operator, the dispatch is refused until the namesake's UniqueFor has passed |
| QueueUniqueness.RefusedIffNamesake | internal/adapter/queue/database.go:104-129 | so without operator deletes a UniqueFor dispatch under a new id, deciding at the clock, is refused iff there is such a namesake |
| QueueOrigins.RowCarriesItsDispatch | internal/adapter/queue/database.go:93-103 | in every reachable state each row carries the queue, type, payload, budget, timeout, retention and creation its own dispatch gave it, through every reservation, failure and revival |
| QueueOrigins.WorkerGetsWhatWasDispatched | internal/adapter/queue/database_reservation.go:37-40 | a worker's copy carries the message and options of an accepted dispatch of its id |
| QueueOrigins.FirstComeFirstServed | internal/adapter/queue/database_reservation.go:17-23 | of two pending jobs of a queue without start times, one dispatched wholly before the other, the later is not handed out first |
| QueueHandout.AfterDispatch | internal/adapter/queue/database.go:78-103 | an accepted job can be handed out by its own queue only, at exactly the readings from its start time on |
| QueueHandout.AfterFailure | internal/adapter/queue/database.go:413-434 | a failed job can be handed out again iff it has budget left and its capped power-of-two delay has passed; otherwise it is marked failed |
| QueueHandout.FailedJobComesBack | internal/adapter/queue/database.go:413-434 | every failed job with budget left can be handed out again within the hour |
| QueueHandout.AfterOperatorRetry | internal/adapter/queue/database.go:544-553 | a failed job the operator means can be handed out again from the operator's reading on, with no attempts used |
| QueueHandout.AfterReservation | internal/adapter/queue/database_reservation.go:17-33 | a reserved job can be handed out again, by its queue only, at exactly the readings from lease end on |
| QueueHandout.AfterHeartbeat | internal/adapter/queue/database.go:321-327 | a heartbeat moves that moment to its own reading plus the reservation |
| QueueHandout.AfterCompletion | internal/adapter/queue/database.go:331-347 | a completed job is never handed out; it stays iff it has retention, and a cleanup may scan it at exactly the readings from completion plus retention on |
| QueueHandout.ReservationTakesTheFirst | internal/adapter/queue/database_reservation.go:17-23 | no waiting row with its start passed, nor expired lease, of the queue has an earlier start than the reserved one, or the same start and an earlier creation |
| QueueOperators.OperatorSparesOthers | internal/adapter/queue/database.go:544-587 | an operator command changes no row, and no lock of a row, but failed ones of the queue that the target names or "all" means |
| QueueOperators.RetryStartsOver | internal/adapter/queue/database.go:550-553 | a retry resets status, attempts, start and failure of a row it means, nothing else and no lock |
| QueueOperators.DeleteForgets | internal/adapter/queue/database.go:561-585 | a delete leaves neither row nor lock of a job it means, so its id can be dispatched again unless another job holds its uniqueness lock |
| QueueOperators.LockCleanupIsExact | internal/adapter/queue/database.go:387 | lock cleanup removes exactly the locks expired by its reading and no row |
| QueueOperators.CleanupIsItsSteps | internal/adapter/queue/database.go:386-411 | an undisturbed cleanup, refused statements included, is the corresponding steps of a run in a row |
| QueueTally.SumPick | internal/adapter/queue/database.go:494-500 | a sum over the table does not depend on which row is counted first |
| QueueTally.SumSplit | internal/adapter/queue/database.go:494-500 | deleting a set of rows takes exactly their share out of a sum |
| QueueTally.StatsPartition | internal/adapter/queue/database.go:494-500 | pending, scheduled, active, retry and failed count every row that is not completed exactly once, at whatever reading |
| QueueTally.StatsAreCounts | internal/adapter/queue/database.go:493-513 | each counter the inspector reports is the number of the queue's rows in its status, pending ones split by whether their start has come |
| QueueConservation.StepBalance | internal/adapter/queue/database.go:331-411 | each step moves jobs between present, processed, deleted and lost without creating or dropping one |
| QueueConservation.Balance | internal/adapter/queue/database.go:106-411 | in every reachable state accepted = uncompleted rows + processed + operator-deleted + lost to stale cleanups |
| QueueConservation.ConservedIffNothingLost | internal/adapter/queue/database.go:482-514 | accepted = pending + scheduled + active + retry + failed + processed + deleted for all queues iff no cleanup of the run deleted an uncompleted row |
| QueueConservation.ConservedWithoutOverlap | internal/adapter/queue/database.go:386-411 | it holds in every run whose cleanups in flight never share a scanned id |
| QueueConservation.ConservedWithOneCleanup | internal/adapter/queue/database.go:374-411 | it holds in every run with at most one cleanup between scan and delete |
| QueueOverlap.OverlapLosesPendingJob | internal/adapter/queue/database.go:391-408 | a concrete run with two overlapping cleanups deletes a fresh pending job and is not conserved |
| QueueRetries.RetryDelayIsCappedPower | internal/adapter/queue/database.go:652-657 | the exponent cap never shows: the delay is min(2^(attempt-1), 3600) seconds from the first attempt on, one second below, for every argument |
| QueueRetries.RetryDelayMonotone | internal/adapter/queue/database.go:652-657 | larger attempts never wait less, for every pair of arguments |
| QueueRetries.CyclesAccounted | internal/adapter/queue/database.go:413-435 | in every reachable state, for every job, the cycle's failures, takeovers and backoff time account for the row |
| QueueRetries.RetryAccounting | internal/adapter/queue/database.go:413-434 | attempts = failures + takeovers + current reservation; pending has none, retry is within and failed past the budget, no row exceeds MaxRetry + 1 by more than its takeovers, and each shows the reading and message of its cycle's latest failure |
| QueueRetries.ReservationWaitsForBackoff | internal/adapter/queue/database.go:413-421 | the reservation after the i-th failure reads its clock at least min(2^(i-1), 3600) s after it and at least all i delays after the cycle began |
| QueueRetries.FailedJobBackedOff | internal/adapter/queue/database.go:418-434 | a job that fails for good without takeovers failed MaxRetry + 1 times and spent the backoff of the first MaxRetry |
| QueueRetries.StepSpends | internal/adapter/queue/database_reservation.go:28-33 | reserving a waiting row uses up one attempt of the standing budget; only dispatches and operator retries add to it |
| QueueRetries.ReservationsArePaidFor | internal/adapter/queue/database_reservation.go:16-43 | between any two points of a run, all reservations are covered by the budget at the first, what was granted since and the takeovers since |
| QueueRetries.GrantIsWholeBudget | internal/adapter/queue/database.go:88-91 | a dispatch or an operator retry grants its job MaxRetry + 1 attempts |
| QueueRetries.TotalReservationsBounded | internal/adapter/queue/database_reservation.go:16-43 | over a run, total reservations never exceed the sum of MaxRetry + 1 over accepted and revived jobs plus the takeovers |
| QueueRetries.BudgetIsTerminationMeasure | internal/adapter/queue/database.go:413-435 | without dispatches and operator retries the budget never grows and every reservation of a waiting row strictly shrinks it |
| QueueTakeovers.ExceedsIffOverdraws | internal/adapter/queue/database_reservation.go:17-33 | a step lifts a row over MaxRetry + 1 attempts iff it takes over its expired lease when the attempts already exceeded MaxRetry |
| QueueTakeovers.OverBudgetUntilRevived | internal/adapter/queue/database.go:544-553 | a row over its budget stays so until an operator retries it |
| QueueTakeovers.OverBudgetIffOverdrawn | internal/adapter/queue/database_reservation.go:17-33 | in every reachable state a row is over its budget iff its current cycle saw such a takeover |
| QueueTakeovers.TakeoversAddUp | internal/adapter/queue/database_reservation.go:17-43 | for every number of takeovers there is a run after which the job has one attempt more than that, whatever its budget |
| QueueTakeovers.AnyBudgetCanBeExceeded | internal/adapter/queue/database_reservation.go:28-33 | so every MaxRetry is exceeded in some run |
| QueueFairness.AheadShrinks | internal/adapter/queue/database_reservation.go:17-23 | once readings lie past a waiting job's start, no step enlarges the set ahead of it and each non-takeover reservation of another job of its queue shrinks it |
| QueueFairness.NoStarvation | internal/adapter/queue/database_reservation.go:17-23 | while a job waits it is passed over at most once for each job ahead of it at the start |
| QueueFairness.FirstInLineIsTaken | internal/adapter/queue/database_reservation.go:17-23 | with nobody ahead of it, an available job is what the next reservation that takes a row of its queue takes, expired leases apart |
| QueueFairness.TurnComes | internal/adapter/queue/database_reservation.go:17-23 | once passed over as often as there were jobs ahead, a waiting job is taken by the next such reservation |
| QueueLease.IntervalBelowReservation | internal/adapter/queue/database.go:306-310 | the heartbeat interval is below the reservation iff the reservation exceeds 1 s, and leaves two thirds of it from 3 s on |
| QueueLease.IntervalIsAThird | internal/adapter/queue/database.go:306-310 | the heartbeat interval is a third of the reservation, rounded down, but never under a second |
| QueueLease.CoveredThroughout | internal/adapter/queue/database.go:321-327 | with timely beats the deadline stays ahead of the clock and covers every renewal so far |
| QueueLease.TimelyWorkerIsNotOvertaken | internal/adapter/queue/database_reservation.go:17-35 | if start-up delay + interval + lateness stay below the reservation, no reserve step takes the job over before the worker finishes it |
| QueueTakeovers.LeaseBoundIsTight | internal/adapter/queue/database.go:306-329 | the bound cannot be improved: whenever delay + interval + lateness reach the reservation - always, for one second - there is a run whose beats all keep time and whose job is taken over |
| RunLoop.WeightedQueueNames | internal/adapter/queue/database.go:633-650 | for any order of map iteration the result is sorted and holds each queue max(weight, 0) times |
| RunLoop.WeightedIndependentOfMapOrder | internal/adapter/queue/database.go:633-650 | that determines the sequence, so map order cannot show |
| Strings.LeIsFirstDifference | internal/adapter/queue/database.go:639 | names are ordered by their first difference, a prefix before its extensions |
| RunLoop.Loop | internal/adapter/queue/database.go:204-245 | for any outcomes of the polls: poll k takes slot offset + k of the sequence, the loop sleeps exactly after an error or a full count of empty polls, and before a sleep without an error its last polls were the whole sequence, all empty |
| RunLoop.StreakMeaning | internal/adapter/queue/database.go:218-241 | the counter is the number of empty polls without a sleep right before, and the run of them is maximal |
| RunLoop.IdleSleepFollowsFullSweep | internal/adapter/queue/database.go:218-241 | a sleep without an error follows a whole sweep of empty polls with no sleep in it; an error always sleeps and resets; a job never sleeps |
| RunLoop.EmptySweepSleeps | internal/adapter/queue/database.go:223-228 | a whole sweep of empty polls always contains a sleep |
| RunLoop.PollsAreWindow | internal/adapter/queue/database.go:205-216 | any stretch of polls as long as the sequence is a window of it, from whatever point of the loop |
| RunLoop.WindowIsRotation | internal/adapter/queue/database.go:205-216 | every window is the whole sequence, rotated |
| RunLoop.WindowPollsEachQueueItsWeight | internal/adapter/queue/database.go:204-216 | every such window polls each queue exactly as often as its weight, and queues without positive weight never |
| RunLoop.IdleSweepIsWhole | internal/adapter/queue/database.go:218-241 | when the loop sleeps without an error, the last length-of-sequence polls were the sequence with its multiplicities, all empty |
| RunLoop.IdleSweepCoversEveryQueue | internal/adapter/queue/database.go:204-244 | so before such a sleep every queue of positive weight was polled among them and found empty |
| Calendar.CivilRoundTrip | internal/scheduler/scheduler.go:142-144 | the civil fields of a minute are in range and lead back to the minute, leap years included |
| Calendar.CivilIsGregorian | internal/scheduler/scheduler.go:142-144 | the fields are those of the Gregorian calendar: its closed formula gives back the day number, and hour and minute the rest |
| Calendar.StampInjective | internal/scheduler/scheduler.go:142-144 | minutes with the same 20060102T1504 rendering are the same minute |
| Calendar.TaskIdInjective | internal/scheduler/scheduler.go:142-144 | equal task IDs come from the same schedule name and minute, also when names contain colons |
| Scheduler.Registry.Register | internal/scheduler/scheduler.go:51-86 | keeps names distinct and sorted and every definition with a job; answers the first applicable error and then changes nothing; otherwise inserts just the new definition |
| Scheduler.Registry.Due | internal/scheduler/scheduler.go:92-105 | the loop lists, in registry order, the definitions due at the whole minute the instant lies in |
| Scheduler.DueIffFires | internal/scheduler/scheduler.go:92-105 | asking for the next fire time after the minute before finds a schedule due iff its expression fires at that minute |
| Scheduler.DueIsFilter | internal/scheduler/scheduler.go:92-105 | the due list has exactly the firing definitions, unchanged, in order, no name twice |
| Scheduler.DueMeansFiringNow | internal/scheduler/scheduler.go:92-105 | given the parser's promise, a tick means exactly the definitions whose expression fires in the minute the instant lies in |
| Scheduler.Runner.RunOne | internal/scheduler/scheduler.go:125-137 | dispatches under the task ID with at least two minutes of retention; a duplicate is no error |
| Scheduler.Runner.Run | internal/scheduler/scheduler.go:120-140 | a tick is the chain of the dispatch transactions of the definitions due in the minute its instant lies in, readings within the tick; exactly the names that could not be dispatched are reported |
| SchedulerOnce.RunKeeps | internal/adapter/queue/database.go:336-347 | until two minutes past its minute, no cleanup has scanned the job and its row expires no earlier, in every reachable state |
| SchedulerOnce.JobStaysUntilHorizon | internal/adapter/queue/database.go:391-408 | until then the job's row stays, through runs, completion and cleanups, unless an operator deletes it |
| SchedulerOnce.AtMostOncePerScheduleAndMinute | internal/scheduler/scheduler.go:120-144 | however many schedulers dispatch a schedule and minute, after an accepted dispatch no second one is accepted before two minutes past the minute, absent an operator delete |
| SchedulerOnce.PromptSchedulersDispatchOnce | internal/scheduler/scheduler.go:120-144 | when all dispatches commit before that, the run accepts at most one |
| SchedulerTick.CallIsScheduled | internal/scheduler/scheduler.go:125-137 | each call of a tick with a serialisable payload is a scheduled dispatch of a due definition |
| SchedulerTick.TickContinuesRun | internal/scheduler/scheduler.go:120-140 | what the runner promises of a tick makes it a continuation of any run that led to its tables, by scheduled dispatches for its minute only; so the guarantees about runs cover every tick |
| SchedulerTick.ScheduledRowHonoursDefinition | internal/scheduler/scheduler.go:125-131 | a scheduled job's row has its definition's queue, type, payload, budget and timeout, and its retention but for at least two minutes |
| SchedulerTick.ScheduledDispatchHonoursUniqueness | internal/scheduler/scheduler.go:125-131 | an accepted scheduled dispatch locks queue, type and payload for its definition's UniqueFor, and touches no uniqueness lock if there is none |
| SchedulerLate.RowLeavesIffRemoved | internal/adapter/queue/database.go:391-408 | a scheduled job's row leaves the table only by an operator's delete or a cleanup past the horizon |
| SchedulerLate.PresentUntilRemoved | internal/adapter/queue/database.go:391-408 | between two accepted dispatches the row is there exactly while neither has happened |
| SchedulerLate.DispatchedAgainIffRemoved | internal/scheduler/scheduler.go:126-137 | the next dispatch is accepted again if and only if one of the two has happened and, for a schedule with UniqueFor, its uniqueness lock is absent or expired |
| SchedulerLate.HorizonIsTight | README.md:267 | for every name and minute there is a run with two accepted dispatches of a schedule due then, the second exactly two minutes past the minute, without an operator |
| IdentityStore.Account.UpdateProfile | internal/user/entity.go:39-53 | an invalid request changes nothing; a valid one sets the name and makes the address pending, or clears the pending one when it is the current address |
| IdentityStore.Account.AssignRole | internal/user/entity.go:55-63 | refuses exactly to make an unverified account admin |
| IdentityStore.Account.VerifyEmail | internal/user/entity.go:65-76 | promotes a pending address, stamps the verification, bumps the version and tells whether it was the first |
| IdentityStore.Account.ChangePasswordHash | internal/user/entity.go:78-81 | replaces the hash and bumps the version, nothing else |
| IdentityStore.UserRepository.Create | internal/adapter/mysql/identity/repository.go:67-88 | inserts a new unverified member, or answers which address or name rule was violated and leaves the tables |
| IdentityStore.UserRepository.RegisterUser | internal/adapter/mysql/identity/repository.go:26-65 | user and verification token together, or neither when the message cannot be dispatched |
| IdentityStore.UserRepository.GetUserByEmail | internal/adapter/mysql/identity/repository.go:122-129 | finds a user with that email iff there is one |
| IdentityStore.UserRepository.UpdateProfile | internal/adapter/mysql/identity/repository.go:148-173 | refuses a name or address somebody else holds, pending addresses included; commits all or nothing |
| IdentityStore.UserRepository.ChangePassword | internal/adapter/mysql/identity/repository.go:175-186 | new hash, new version and the end of every unrevoked row of the user in one transaction |
| IdentityStore.UserRepository.ChangeRole | internal/adapter/mysql/identity/repository.go:188-227 | the transaction checks actor, verification and last admin afresh, whatever the service had read |
| IdentityStore.UserRepository.Delete | internal/adapter/mysql/identity/repository.go:229-249 | the last admin stays; otherwise the user goes with its refresh and verification tokens |
| IdentityStore.UserRepository.CreateRefreshToken | internal/adapter/mysql/identity/repository.go:251-260 | inserts an unrevoked row unless the hash exists or the user does not |
| IdentityStore.UserRepository.GetActiveRefreshTokenByHash | internal/adapter/mysql/identity/repository.go:262-276 | finds a row iff it is unrevoked and unexpired at the reading |
| IdentityStore.UserRepository.RevokeRefreshTokenByHash | internal/adapter/mysql/identity/repository.go:278-281 | revokes the row if it is unrevoked, and reports whether it was |
| IdentityStore.UserRepository.RotateRefreshToken | internal/adapter/mysql/identity/repository.go:283-309 | revokes the presented row and inserts the replacement, or neither |
| IdentityStore.UserRepository.ReplaceEmailVerificationToken | internal/adapter/mysql/identity/repository.go:311-321 | leaves the user exactly one verification token, the new one, or rolls back |
| IdentityStore.UserRepository.VerifyEmail | internal/adapter/mysql/identity/repository.go:332-402 | without a redeemable token nothing changes; with one the user it belongs to is verified, promoted under the bootstrap policy, and its sessions end |
| IdentityStore.UserRepository.DeleteExpiredOrRevokedRefreshTokens | internal/adapter/mysql/identity/repository.go:404-410 | removes exactly the rows expired or revoked before the instant and counts them |
| IdentityStore.UserService.Forward | internal/user/service.go:74-89 | whatever stale account the service read, it forwards the requested name and address |
| IdentityStore.UserService.UpdateProfile | internal/user/service.go:74-90 | missing account and invalid request are refused without change; else the transaction's answer is the caller's |
| IdentityStore.UserService.ChangePassword | internal/user/service.go:92-114 | a new password outside 12 to 72 bytes or a wrong current one changes nothing; else the transaction runs |
| IdentityStore.UserService.ChangeRole | internal/user/service.go:116-157 | an unknown role name and changing one's own role are refused; the checks before the transaction refuse only what it would refuse |
| IdentityStore.UserService.Delete | internal/user/service.go:159-186 | only an admin deletes, and never itself; the last admin stays |
| IdentityStore.UserService.DeleteSelf | internal/user/service.go:188-199 | needs the current password; the last admin cannot leave |
| IdentityStore.AuthService.Register | internal/auth/service.go:105-138 | an invalid request changes nothing; a valid one stores a member at version 1 with a verification token that lives the configured time, or rolls both back |
| IdentityStore.AuthService.VerifyEmail | internal/auth/service.go:174-201 | an empty or unredeemable secret changes nothing; otherwise its user is verified under the configured bootstrap address |
| IdentityStore.AuthService.Mint | internal/adapter/jwt/service.go:80-95 | an access and a refresh token for the user and version asked for, with the configured lifetimes, signed in order |
| IdentityStore.AuthService.Login | internal/auth/service.go:205-230 | succeeds only for a matching password and a verified account, with a freshly minted pair of its current version and an active row; each refusal says which condition failed, and the store refuses the row only if the random identifier is not new |
| IdentityStore.AuthService.Refresh | internal/auth/service.go:232-274 | undisturbed: succeeds only for a valid refresh token with an active row of its user and a matching verified account, and then trades the row for that of a freshly minted pair |
| IdentityStore.AuthService.Logout | internal/auth/service.go:276-286 | afterwards the presented token is not unrevoked, whether or not it was known |
| IdentityInvariant.PromotionNeverCollides | internal/adapter/mysql/identity/repository.go:375-381 | with disjoint addresses, promoting a pending email cannot hit the unique constraint |
| IdentityInvariant.StepKeepsClaims | internal/adapter/mysql/identity/repository.go:32-173 | every step keeps the addresses of distinct users, pending ones included, disjoint |
| IdentityInvariant.BumpRevokes | internal/adapter/mysql/identity/repository.go:175-227 | a row that is still unrevoked after a step still matches its account's version and verification |
| IdentityInvariant.NoRevival | internal/adapter/mysql/identity/repository.go:283-309 | a revoked or removed token never comes back as an unrevoked row |
| IdentityInvariant.StepAdvances | internal/adapter/mysql/identity/repository.go:175-227 | token versions never fall and user ids are never reused |
| IdentityInvariant.StepKeepsInv | internal/auth/service.go:205-286 | every step of every interleaving keeps addresses disjoint, admins verified, references intact and every refresh in progress right about its account while its row is unrevoked |
| IdentityInvariant.ReachableInv | internal/adapter/mysql/identity/repository.go:26-410 | that invariant holds in every state of every run |
| IdentityInvariant.AddressHasOneOwner | internal/adapter/mysql/identity/repository.go:131-138 | a lookup of a non-empty address among emails and pending emails has at most one match |
| IdentityInvariant.RedeemableTokenVerifies | internal/adapter/mysql/identity/repository.go:332-402 | a redeemable verification token is always honoured, with the pending address promoted and the token gone |
| IdentitySessions.SuccessfulRefreshIsCurrent | internal/auth/service.go:232-274 | if the rotation commits, the account exists, is verified and has the token's version, and both new tokens are current |
| IdentitySessions.RunAdvances | internal/adapter/mysql/identity/repository.go:175-227 | versions never fall between any two points of a run |
| IdentitySessions.OutdatedTokenIsNeverAccepted | internal/adapter/http/middleware/jwt_middleware.go:32-35 | once its user moved past a token's version, the token is never honoured and never rotated again, even if a late login stores its row |
| IdentitySessions.BumpOutdates | internal/adapter/mysql/identity/repository.go:175-249 | a password change, role change, verification or deletion outdates all tokens so far and leaves no unrevoked row |
| IdentitySessions.BumpEndsSessions | internal/auth/service.go:249-252 | so it ends every session of the user for the rest of the run |
| IdentitySessions.AtMostOneUnrevokedPerFamily | internal/adapter/mysql/identity/repository.go:283-309 | of the tokens rotated from one login at most one is unrevoked, in every reachable state |
| IdentitySessions.SpentStays | internal/adapter/mysql/identity/repository.go:278-309 | a token that is no longer unrevoked stays so |
| IdentitySessions.RotatedAtMostOnce | internal/adapter/mysql/identity/repository.go:283-309 | no two rotations of a run present the same token |
| IdentitySessions.StepAlike | internal/adapter/mysql/identity/repository.go:262-309 | stores differing only in expired and revoked rows take every step with the same outcome |
| IdentitySessions.PurgeIsInvisible | internal/adapter/mysql/identity/repository.go:404-410 | whatever follows, with lookups at or after the instant, plays out the same with and without the purge |
| IdentityAdmins.AdminsAfter | internal/adapter/mysql/identity/repository.go:188-249 | how each step changes the set of admins: bootstrap only from none, grants only by an admin, a demotion removes just its target, never down to none |
| IdentityAdmins.BootstrapsIffOwner | internal/auth/service.go:179-185 | a verification promotes iff there is no admin and the address it verifies is the configured, non-empty one |
| IdentityAdmins.StepKeepsLineage | internal/auth/service.go:179-185 | every step keeps at most one bootstrap and a chain of grants from it to each admin |
| IdentityAdmins.AdminLineage | internal/adapter/mysql/identity/repository.go:356-381 | in every reachable state each admin is verified and reached by grants from the one bootstrapped user |
| IdentityAdmins.RootOwnedTheAddress | internal/auth/service.go:179-185 | whoever is an admin in a reachable state descends by grants from a user who owned that address when promoted |
| IdentityAdmins.BootstrapAtMostOnce | internal/auth/service.go:179-185 | promotion by verification happens at most once in a run |
| IdentityAdmins.AdminsNeverVanish | internal/adapter/mysql/identity/repository.go:207-245 | once there is an admin there always is one, whatever the service read beforehand |
| IdentityAccounts.ColumnsHaveOwners | internal/adapter/mysql/identity/repository.go:148-402 | no column of an account changes but by the call it belongs to, on this account and to what that call was given; versions move by one with each password change, role change and verification |
| IdentityAccounts.CommittedCallsTakeEffect | internal/adapter/mysql/identity/repository.go:148-249 | a committed password, role or profile change leaves its column as asked, a committed deletion nothing of the user |
| IdentityAccounts.PasswordIsTheLatest | internal/adapter/mysql/identity/repository.go:175-186 | the stored hash is the one of the latest committed password change, or of the creation if there was none |
| IdentityAccounts.CreationGranted | internal/adapter/mysql/identity/repository.go:26-88 | a user is created iff nobody uses the name and nobody claims the address, registered iff moreover the message went out; a refusal names what was taken |
| IdentityAccounts.ProfileChangeGranted | internal/adapter/mysql/identity/repository.go:148-173 | a profile change commits iff the user exists and nobody else uses the name or claims the address; a refusal names what was taken |
| IdentityAccounts.RoleChangeGranted | internal/adapter/mysql/identity/repository.go:188-227 | a role change commits iff an admin asks for an existing target, a new admin is verified and a demoted one is not the only one; each refusal says which condition failed |
| IdentityAccounts.DeletionGranted | internal/adapter/mysql/identity/repository.go:229-249 | a deletion commits iff the user exists and is not the only admin |
| IdentityAccounts.RegisterThenVerify | internal/auth/service.go:105-138 | a registration stores what was asked for, unverified, and exactly its link, until expiry, verifies it under the registered address |
| IdentityAccounts.LinkIsSingleUse | internal/adapter/mysql/identity/repository.go:383-390 | after a verification no secret redeems anything for the user |
| IdentityAccounts.NewLinkReplacesOld | internal/adapter/mysql/identity/repository.go:311-321 | a new link retires the user's older one and touches nobody else's |
| IdentityAccounts.LoginTokenIsActive | internal/adapter/mysql/identity/repository.go:251-276 | a login's refresh token is found, in its user's name, exactly until it expires |
| IdentityAccounts.RotationGranted | internal/adapter/mysql/identity/repository.go:283-309 | a rotation commits iff the presented row is unrevoked and unexpired, the replacement new and the user there; it answers unauthorized only for the former |
| IdentityAccounts.RotationSwapsTokens | internal/adapter/mysql/identity/repository.go:283-309 | after a rotation the replacement is found until it expires and the presented token never |
| IdentityAccounts.LogoutEndsOneToken | internal/adapter/mysql/identity/repository.go:278-281 | after a logout the presented token is not found, every other one as before |
| IdentityAccounts.RowsAreRevokedOnce | internal/adapter/mysql/identity/repository.go:175-309 | a stored row changes only once, to revoked at the reading of the revoking step; its user and expiry never change |
| IdentityAccounts.RotatedTokenIsAlive | internal/auth/service.go:232-274 | in runs only an unexpired refresh token is ever rotated |
| IdentityAccounts.LookupIsStrict | internal/auth/service.go:233-247 | the lookup answers iff the token is a refresh token, valid at the reading, with an unrevoked row |
| IdentityAccounts.PurgeIsExact | internal/adapter/mysql/identity/repository.go:404-410 | the purge removes exactly the rows expired or revoked before its instant |

## Left out

- QueueStore.DatabaseWorker.First: the query library adds the primary key as a last ordering column and the
  query skips locked rows; any first row by available_at and created_at may be chosen here, and a row is never
  skipped, so the fairness results say nothing about rows that other transactions hold locked.
- QueueStore.DatabaseWorker.Cleanup: speaks of a call nobody interferes with; in runs lock cleanup, scan, delete
  and abandonment are separate steps.
- QueueStore.DatabaseWorker.Process: escaping of special characters when the message quotes the job type.
- IdentityStore.AuthService.Refresh: speaks of a call nobody interferes with; the interleaved call is three
  steps of `IdentitySystem`.
- IdentityStore.UserService.ChangeRole: the role name comes trimmed and in lower case; a failing role assignment
  cannot occur after the checks before it.
- QueueLease.TimelyWorkerIsNotOvertaken: that the ticker keeps time is a hypothesis about the run's clock.
- Isolation levels, deadlocks, column rounding and collation of the database; a transaction or single
  statement is atomic here, and outside a cleanup database errors other than key and reference violations do
  not occur.
- 64-bit overflow of durations, attempts and counters.
- Hashing, signing and the token wire format; issuer, audience and issued-at checks of tokens.
- The Redis driver, cron parsing, time zones, and years before 0.
- Normalisation and format checks of names and addresses, and pagination; a request enters already normalised.
- The inspector's list of failed jobs and of queue names, the user list, the resend rate limit, welcome
  messages and the profile of the current user: each is settled by reading one query.
- HTTP handlers, mail, command line, configuration and process wiring, goroutine shutdown and panic recovery.
