/** The queue driver's objects over a shared database, statement by statement.  Each method is
    proved against the transaction it performs; QueueSystem interleaves those transactions. */
module QueueStore {
  import opened Prelude
  import opened Clocks
  import opened QueueTables
  import opened QueueTally

  class Database {
    var jobs: map<JobId, Job>
    var locks: map<LockKey, Lock>
    var stats: map<string, nat>

    constructor ()
      ensures View() == Tables(map[], map[], map[])
    {
      jobs, locks, stats := map[], map[], map[];
    }

    function View(): Tables
      reads this
    {
      Tables(jobs, locks, stats)
    }
  }

  datatype DispatchError = DuplicateJob | UnserializablePayload

  datatype JobInfo = JobInfo(id: JobId, queue: string)

  /** A dispatch puts down at most one expiring lock, and that one last. */
  lemma NoneExpiresBefore(id: JobId, message: Message, options: Options, now: int, i: nat)
    requires i < |DispatchLocks(id, message, options, now)|
    ensures forall j :: 0 <= j < i ==> DispatchLocks(id, message, options, now)[j].lock.expiresAt.None?
  {}

  lemma {:induction false} ClearNothing(locks: map<LockKey, Lock>, rows: seq<LockRow>, n: nat, now: int)
    requires n <= |rows| && forall i :: 0 <= i < n ==> rows[i].lock.expiresAt.None?
    ensures ClearExpired(locks, rows, n, now) == locks
  {
    if n != 0 { ClearNothing(locks, rows, n - 1, now); }
  }

  lemma DistinctKeys(id: JobId, message: Message, options: Options, now: int)
    ensures var rows := DispatchLocks(id, message, options, now);
            forall i, j :: 0 <= i < j < |rows| ==> rows[i].key != rows[j].key
  {}

  lemma {:induction false} InsertedKeys(locks: map<LockKey, Lock>, rows: seq<LockRow>, n: nat, key: LockKey)
    requires n <= |rows|
    ensures key in InsertLocks(locks, rows, n) <==> key in locks || exists i :: 0 <= i < n && rows[i].key == key
  {
    if n != 0 { InsertedKeys(locks, rows, n - 1, key); }
  }

  class DatabaseDispatcher {
    const db: Database
    const clock: Clock

    constructor (db: Database, clock: Clock)
      ensures this.db == db && this.clock == clock
    {
      this.db, this.clock := db, clock;
    }

    /** The lock rows a dispatch puts down: one for its task ID, then one for its uniqueness. */
    method LocksFor(id: JobId, queueName: string, message: Message, options: Options, now: int)
      returns (rows: seq<LockRow>)
      requires queueName == QueueName(options)
      ensures rows == DispatchLocks(id, message, options, now)
    {
      rows := [];
      if options.taskId != "" {
        rows := rows + [LockRow(HashLockKey("task", options.taskId), Lock(id, None))];
      }
      if options.uniqueFor > 0 {
        var expiresAt := now + options.uniqueFor;
        var key := HashLockKey("unique", UniqueValue(queueName, message.jobType, message.payload));
        rows := rows + [LockRow(key, Lock(id, Some(expiresAt)))];
      }
    }

    /** The statements before the insert: drop the expired namesakes of the expiring locks. */
    method DropExpired(id: JobId, message: Message, options: Options, from: int, rows: seq<LockRow>)
      returns (ghost reading: int)
      requires rows == DispatchLocks(id, message, options, from)
      modifies db`locks, clock
      ensures old(clock.now) <= reading <= clock.now
      ensures db.locks == ClearExpired(old(db.locks), rows, |rows|, reading)
    {
      hide DispatchLocks;
      reading := clock.now;
      var i := 0;
      while i < |rows|
        invariant 0 <= i <= |rows|
        invariant old(clock.now) <= reading <= clock.now
        invariant db.locks == ClearExpired(old(db.locks), rows, i, reading)
      {
        var row := rows[i];
        if row.lock.expiresAt.Some? {
          var now := clock.Now();
          NoneExpiresBefore(id, message, options, from, i);
          ClearNothing(old(db.locks), rows, i, reading);
          ClearNothing(old(db.locks), rows, i, now);
          if row.key in db.locks && db.locks[row.key].expiresAt.Some? && db.locks[row.key].expiresAt.value <= now {
            db.locks := db.locks - {row.key};
          }
          reading := now;
        }
        i := i + 1;
      }
    }

    /** Insert the job, then its locks; any duplicate key undoes everything since `before`. */
    method InsertAll(id: JobId, record: Job, rows: seq<LockRow>, before: Tables) returns (ok: bool)
      requires before.jobs == db.jobs && before.stats == db.stats
      requires forall i, j :: 0 <= i < j < |rows| ==> rows[i].key != rows[j].key
      modifies db
      ensures ok <==> id !in before.jobs && forall i :: 0 <= i < |rows| ==> rows[i].key !in old(db.locks)
      ensures ok ==>
        db.View() == before.(jobs := before.jobs[id := record], locks := InsertLocks(old(db.locks), rows, |rows|))
      ensures !ok ==> db.View() == before
    {
      if id in db.jobs {
        db.locks := before.locks;
        return false;
      }
      db.jobs := db.jobs[id := record];
      var i := 0;
      while i < |rows|
        invariant 0 <= i <= |rows|
        invariant db.jobs == before.jobs[id := record] && db.stats == before.stats
        invariant db.locks == InsertLocks(old(db.locks), rows, i)
        invariant forall j :: 0 <= j < i ==> rows[j].key !in old(db.locks)
      {
        InsertedKeys(old(db.locks), rows, i, rows[i].key);
        if rows[i].key in db.locks {
          db.jobs, db.locks := before.jobs, before.locks;
          return false;
        }
        db.locks := db.locks[rows[i].key := rows[i].lock];
        i := i + 1;
      }
      return true;
    }

    /** Dispatch.  `payload` is None when the job's payload cannot be serialised. */
    method Dispatch(jobType: string, payload: Option<string>, options: Options, uuid: string)
      returns (result: Result<JobInfo, DispatchError>, ghost at: Readings)
      modifies db, clock
      ensures at.Ordered(old(clock.now), clock.now)
      ensures payload.None? ==> result == Err(UnserializablePayload) && db.View() == old(db.View())
      ensures payload.Some? ==>
        var id := if options.taskId != "" then options.taskId else uuid;
        var message := Message(jobType, payload.value);
        && db.View() == DispatchTx(old(db.View()), id, message, options, at)
        && result == if Accepts(old(db.View()), id, message, options, at)
                     then Ok(JobInfo(id, if options.queue == "" then "default" else options.queue))
                     else Err(DuplicateJob)
    {
      at := Readings(clock.now, clock.now, clock.now, clock.now);
      if payload.None? {
        return Err(UnserializablePayload), at;
      }
      var queueName := options.queue;
      if queueName == "" {
        queueName := "default";
      }
      var availableAt;
      if options.processAt.None? {
        availableAt := clock.Now();
        at := at.(available := availableAt);
      } else {
        availableAt := options.processAt.value;
      }
      var maxRetry := options.maxRetry;
      if maxRetry <= 0 {
        maxRetry := DEFAULT_MAX_RETRY;
      }
      var id, message := uuid, Message(jobType, payload.value);
      if options.taskId != "" {
        id := options.taskId;
      }
      var lockNow := clock.Now();
      var rows := LocksFor(id, queueName, message, options, lockNow);

      var before := db.View();
      ghost var reading := DropExpired(id, message, options, lockNow, rows);
      var createdAt := clock.Now();
      at := at.(locks := lockNow, transaction := reading, created := createdAt);
      var record := Job(queueName, jobType, payload.value, Pending, 0, maxRetry,
        DurationSeconds(options.timeout), DurationSeconds(options.retention), availableAt,
        None, None, None, None, None, None, createdAt);
      DistinctKeys(id, message, options, lockNow);
      var ok := InsertAll(id, record, rows, before);
      result := if ok then Ok(JobInfo(id, queueName)) else Err(DuplicateJob);
    }
  }

  /** What the worker keeps of the row it reserved. */
  datatype Reserved = Reserved(id: JobId, row: Job)

  /** Which statements of a cleanup the database refuses. */
  datatype Faults = Faults(locks: bool, scan: bool, sweep: bool)

  function CleanupTx(t: Tables, now: int, scanned: set<JobId>, faults: Faults): Tables {
    var unlocked := if faults.locks then t else CleanLocksTx(t, now);
    if faults.scan || faults.sweep then unlocked else SweepTx(unlocked, scanned)
  }

  class DatabaseWorker {
    const db: Database
    const clock: Clock
    const reservation: int
    var nextCleanup: int

    constructor (db: Database, clock: Clock, reservation: int)
      ensures this.db == db && this.clock == clock && this.reservation == reservation
      ensures nextCleanup <= clock.now
    {
      this.db, this.clock, this.reservation, nextCleanup := db, clock, reservation, clock.now;
    }

    /** The SELECT of the reservation: some first row in (available_at, created_at) order. */
    method First(queue: string, now: int) returns (choice: Option<JobId>)
      ensures choice.Some? ==> Earliest(db.jobs, queue, now, choice.value)
      ensures choice.None? ==> forall id :: !Eligible(db.jobs, queue, now, id)
    {
      choice := None;
      var rest := db.jobs.Keys;
      while rest != {}
        invariant rest <= db.jobs.Keys
        invariant choice.Some? ==> Eligible(db.jobs, queue, now, choice.value)
        invariant forall id :: Eligible(db.jobs, queue, now, id) && id !in rest ==>
                    choice.Some? && db.jobs[choice.value].NotAfter(db.jobs[id])
        decreases |rest|
      {
        var id :| id in rest;
        if Eligible(db.jobs, queue, now, id) && (choice.None? || !db.jobs[choice.value].NotAfter(db.jobs[id])) {
          choice := Some(id);
        }
        rest := rest - {id};
      }
    }

    /** reserveDatabaseJob: select, update, and bring the local copy up to date. */
    method ReserveJob(queue: string, now: int, token: Token) returns (job: Option<Reserved>)
      modifies db`jobs
      ensures job.None? ==> db.View() == old(db.View()) && forall id :: !Eligible(old(db.jobs), queue, now, id)
      ensures job.Some? ==>
        && Earliest(old(db.jobs), queue, now, job.value.id)
        && db.View() == ReserveTx(old(db.View()), job.value.id, token, now, reservation)
        && job.value.row == db.jobs[job.value.id]
    {
      var choice := First(queue, now);
      if choice.None? {
        return None;
      }
      var id := choice.value;
      var row := db.jobs[id];
      db.jobs := db.jobs[id := row.(status := Active, attempts := row.attempts + 1,
                                    leaseToken := Some(token), leasedUntil := Some(now + reservation))];
      row := row.(status := Active);
      row := row.(attempts := row.attempts + 1);
      row := row.(leaseToken := Some(token));
      row := row.(leasedUntil := Some(now + reservation));
      return Some(Reserved(id, row));
    }

    /** One tick of the heartbeat. */
    method HeartbeatTick(job: Reserved, token: Token) returns (ghost reading: int)
      modifies db`jobs, clock
      ensures old(clock.now) <= reading == clock.now
      ensures db.View() == HeartbeatTx(old(db.View()), job.id, token, reading, reservation)
    {
      var now := clock.Now();
      reading := now;
      if job.id in db.jobs && db.jobs[job.id].status == Active && db.jobs[job.id].leaseToken == Some(token) {
        db.jobs := db.jobs[job.id := db.jobs[job.id].(leasedUntil := Some(now + reservation))];
      }
    }

    method Complete(job: Reserved, token: Token) returns (ghost reading: int)
      modifies db, clock
      ensures old(clock.now) <= reading == clock.now
      ensures db.View() == CompleteTx(old(db.View()), job.id, job.row, token, reading)
    {
      var now := clock.Now();
      reading := now;
      var affected := 0;
      if job.id in db.jobs && db.jobs[job.id].status == Active && db.jobs[job.id].leaseToken == Some(token) {
        affected := 1;
        if job.row.retentionSecs <= 0 {
          db.jobs := db.jobs - {job.id};
        } else {
          var expiresAt := now + job.row.retentionSecs * SECOND;
          db.jobs := db.jobs[job.id := db.jobs[job.id].(status := Completed, completedAt := Some(now),
            expiresAt := Some(expiresAt), leaseToken := None, leasedUntil := None)];
        }
      }
      if affected == 0 {
        return;
      }
      if job.row.retentionSecs <= 0 {
        db.locks := map key | key in db.locks && !(db.locks[key].expiresAt.None? && db.locks[key].jobId in {job.id})
                    :: db.locks[key];
      }
      if job.row.queue in db.stats {
        db.stats := db.stats[job.row.queue := db.stats[job.row.queue] + 1];
      } else {
        db.stats := db.stats[job.row.queue := 1];
      }
    }

    method Fail(job: Reserved, token: Token, reason: string) returns (ghost reading: int)
      modifies db`jobs, clock
      ensures old(clock.now) <= reading == clock.now
      ensures db.View() == FailTx(old(db.View()), job.id, job.row, token, reading, reason)
    {
      var now := clock.Now();
      reading := now;
      var status, availableAt := Retry, now + RetryDelay(job.row.attempts);
      if job.row.attempts > job.row.maxRetry {
        status, availableAt := Failed, now;
      }
      if job.id in db.jobs && db.jobs[job.id].status == Active && db.jobs[job.id].leaseToken == Some(token) {
        db.jobs := db.jobs[job.id := db.jobs[job.id].(status := status, availableAt := availableAt,
          lastError := Some(reason), lastFailedAt := Some(now), leaseToken := None, leasedUntil := None)];
      }
    }

    /** process: a missing handler, a failing one and an ended context fail the job, in this order of
        precedence and each with its own message; only a handler that returned without error under a live
        context completes it. */
    method Process(job: Reserved, token: Token, registered: bool, handlerError: Option<string>,
                   contextError: Option<string>)
      returns (ghost reading: int)
      modifies db, clock
      ensures old(clock.now) <= reading == clock.now
      ensures registered && handlerError.None? && contextError.None? ==>
        db.View() == CompleteTx(old(db.View()), job.id, job.row, token, reading)
      ensures !registered ==>
        var reason := "no handler registered for \"" + job.row.jobType + "\"";
        db.View() == FailTx(old(db.View()), job.id, job.row, token, reading, reason)
      ensures registered && handlerError.Some? ==>
        db.View() == FailTx(old(db.View()), job.id, job.row, token, reading, handlerError.value)
      ensures registered && handlerError.None? && contextError.Some? ==>
        db.View() == FailTx(old(db.View()), job.id, job.row, token, reading, contextError.value)
    {
      if !registered {
        reading := Fail(job, token, "no handler registered for \"" + job.row.jobType + "\"");
        return;
      }
      var err := handlerError;
      if err.None? {
        err := contextError;
      }
      if err.Some? {
        reading := Fail(job, token, err.value);
        return;
      }
      reading := Complete(job, token);
    }

    /** The cleanup scan: expired completed rows, at most a hundred of them. */
    method ScanExpired(now: int) returns (ids: set<JobId>)
      ensures ScanResult(db.jobs, now, ids)
      ensures |ids| <= 100
      ensures forall id :: id in ids ==>
        id in db.jobs && db.jobs[id].status == Completed
        && db.jobs[id].expiresAt.Some? && db.jobs[id].expiresAt.value <= now
      ensures |ids| < 100 ==> forall id :: id in db.jobs && db.jobs[id].status == Completed
                                           && db.jobs[id].expiresAt.Some? && db.jobs[id].expiresAt.value <= now
                                           ==> id in ids
    {
      ids := {};
      var rest := db.jobs.Keys;
      while rest != {} && |ids| < SCAN_LIMIT
        invariant rest <= db.jobs.Keys
        invariant |ids| <= SCAN_LIMIT
        invariant ids == ExpiredIds(db.jobs, now) - rest
        decreases |rest|
      {
        var id :| id in rest;
        if db.jobs[id].ExpiredAt(now) {
          ids := ids + {id};
        }
        rest := rest - {id};
      }
    }

    /** cleanup with nobody in between: expired locks first, then scan, then the delete transaction.  A
        statement that fails is logged: a failed lock cleanup does not stop the rest, a failed scan ends it. */
    method Cleanup(now: int, faults: Faults) returns (ghost scanned: set<JobId>)
      modifies db`jobs, db`locks
      ensures ScanResult(old(db.jobs), now, scanned)
      ensures db.View() == CleanupTx(old(db.View()), now, scanned, faults)
    {
      if !faults.locks {
        db.locks := map key | key in db.locks
                              && !(db.locks[key].expiresAt.Some? && db.locks[key].expiresAt.value <= now)
                    :: db.locks[key];
      }
      var ids := ScanExpired(now);
      scanned := ids;
      if faults.scan || |ids| == 0 {
        assert db.jobs - {} == db.jobs;
        assert DropOwnedLocks(db.locks, {}) == db.locks;
        return;
      }
      var before := db.locks;
      db.locks := map key | key in db.locks && !(db.locks[key].expiresAt.None? && db.locks[key].jobId in ids)
                  :: db.locks[key];
      if faults.sweep {
        db.locks := before;
        return;
      }
      db.jobs := db.jobs - ids;
    }

    /** Cleans up at most once per interval of readings. */
    method MaybeCleanup(now: int, faults: Faults) returns (ghost scanned: Option<set<JobId>>)
      modifies db`jobs, db`locks, this`nextCleanup
      ensures scanned.Some? <==> old(nextCleanup) <= now
      ensures scanned.None? ==> db.View() == old(db.View()) && nextCleanup == old(nextCleanup)
      ensures scanned.Some? ==>
        && nextCleanup == now + 30 * SECOND
        && ScanResult(old(db.jobs), now, scanned.value)
        && db.View() == CleanupTx(old(db.View()), now, scanned.value, faults)
    {
      scanned := None;
      if now < nextCleanup {
        return;
      }
      nextCleanup := now + CLEANUP_INTERVAL;
      ghost var ids := Cleanup(now, faults);
      scanned := Some(ids);
    }

    /** reserve: one reading serves the cleanup check and the reservation. */
    method Reserve(queue: string, token: Token, faults: Faults)
      returns (job: Option<Reserved>, ghost reading: int, ghost cleaned: Tables, ghost scanned: Option<set<JobId>>)
      modifies db, clock, this`nextCleanup
      ensures old(clock.now) <= reading == clock.now
      ensures scanned.Some? <==> old(nextCleanup) <= reading
      ensures scanned.None? ==> cleaned == old(db.View()) && nextCleanup == old(nextCleanup)
      ensures scanned.Some? ==>
        && nextCleanup == reading + 30 * SECOND
        && ScanResult(old(db.jobs), reading, scanned.value)
        && cleaned == CleanupTx(old(db.View()), reading, scanned.value, faults)
      ensures job.None? ==> db.View() == cleaned && forall id :: !Eligible(cleaned.jobs, queue, reading, id)
      ensures job.Some? ==>
        && Earliest(cleaned.jobs, queue, reading, job.value.id)
        && db.View() == ReserveTx(cleaned, job.value.id, token, reading, reservation)
        && job.value.row == db.jobs[job.value.id]
    {
      var now := clock.Now();
      reading := now;
      scanned := MaybeCleanup(now, faults);
      cleaned := db.View();
      job := ReserveJob(queue, now, token);
    }
  }

  class DatabaseInspector {
    const db: Database
    const clock: Clock

    constructor (db: Database, clock: Clock)
      ensures this.db == db && this.clock == clock
    {
      this.db, this.clock := db, clock;
    }

    /** One SUM(CASE ...) column over the job table. */
    method SumColumn(w: Tally) returns (total: nat)
      ensures total == Sum(db.jobs, w)
    {
      total := 0;
      var rest := db.jobs.Keys;
      AllRows(db.jobs);
      while rest != {}
        invariant rest <= db.jobs.Keys
        invariant total + Sum(Only(db.jobs, rest), w) == Sum(db.jobs, w)
        decreases |rest|
      {
        var id :| id in rest;
        CountRow(db.jobs, rest, id, w);
        total := total + Weigh(w, db.jobs[id]);
        rest := rest - {id};
      }
      assert Only(db.jobs, {}) == map[];
      SumEmpty(w);
    }

    method Stats(queue: string) returns (stats: QueueStats, ghost reading: int)
      modifies clock
      ensures old(clock.now) <= reading == clock.now
      ensures stats == QueueTally.Stats(db.View(), queue, reading)
    {
      var now := clock.Now();
      reading := now;
      var pending := SumColumn(PendingIn(queue, now));
      var active := SumColumn(ActiveIn(queue));
      var scheduled := SumColumn(ScheduledIn(queue, now));
      var retry := SumColumn(RetryIn(queue));
      var failed := SumColumn(FailedIn(queue));
      var processed := if queue in db.stats then db.stats[queue] else 0;
      stats := QueueStats(pending, active, scheduled, retry, failed, processed);
    }

    method Retry(queue: string, target: string) returns (affected: nat, ghost reading: int)
      modifies db`jobs, clock
      ensures old(clock.now) <= reading == clock.now
      ensures affected == |SelectedIds(old(db.jobs), queue, target)|
      ensures db.View() == OperatorRetryTx(old(db.View()), queue, target, reading)
    {
      var now := clock.Now();
      reading := now;
      var ids := SelectedIds(db.jobs, queue, target);
      affected := |ids|;
      db.jobs := map id | id in db.jobs :: if id in ids
        then db.jobs[id].(status := QueueTables.Status.Retry, attempts := 0, availableAt := now,
                          lastError := None, lastFailedAt := None)
        else db.jobs[id];
    }

    method Delete(queue: string, target: string) returns (affected: nat)
      modifies db`jobs, db`locks
      ensures affected == |SelectedIds(old(db.jobs), queue, target)|
      ensures db.View() == OperatorDeleteTx(old(db.View()), queue, target)
    {
      var ids := SelectedIds(db.jobs, queue, target);
      affected := |ids|;
      if |ids| == 0 {
        assert db.jobs - {} == db.jobs;
        assert DropJobLocks(db.locks, {}) == db.locks;
        return;
      }
      db.locks := map key | key in db.locks && db.locks[key].jobId !in ids :: db.locks[key];
      db.jobs := db.jobs - ids;
    }
  }

  lemma AllRows(jobs: map<JobId, Job>)
    ensures Only(jobs, jobs.Keys) == jobs
  {}

  lemma CountRow(jobs: map<JobId, Job>, rest: set<JobId>, id: JobId, w: Tally)
    requires id in rest && rest <= jobs.Keys
    ensures Sum(Only(jobs, rest), w) == Weigh(w, jobs[id]) + Sum(Only(jobs, rest - {id}), w)
  {
    hide Sum, Weigh;
    SumPick(Only(jobs, rest), w, id);
    assert Only(jobs, rest) - {id} == Only(jobs, rest - {id});
  }
}
