/** The three tables of the database queue and its transactions, each transaction as one
    function from tables to tables.  The classes in QueueStore are proved against these
    functions; the state machine in QueueSystem interleaves them. */
module QueueTables {
  import opened Prelude

  type JobId = string
  type Token = string

  const DEFAULT_MAX_RETRY: int := 25
  const CLEANUP_INTERVAL: int := 30 * SECOND
  const SCAN_LIMIT: nat := 100
  const NUL: char := '\0'

  datatype Status = Pending | Active | Retry | Failed | Completed

  datatype Job = Job(
    queue: string,
    jobType: string,
    payload: string,
    status: Status,
    attempts: nat,
    maxRetry: int,
    timeoutSecs: int,
    retentionSecs: int,
    availableAt: int,
    leaseToken: Option<Token>,
    leasedUntil: Option<int>,
    lastError: Option<string>,
    lastFailedAt: Option<int>,
    completedAt: Option<int>,
    expiresAt: Option<int>,
    createdAt: int)
  {
    /** The row waits to be reserved. */
    predicate Waiting() { status == Pending || status == Retry }

    /** The WHERE clause of the reservation query, at a clock reading. */
    predicate EligibleAt(now: int) {
      || (Waiting() && availableAt <= now)
      || (status == Active && leasedUntil.Some? && leasedUntil.value <= now)
    }

    /** The ORDER BY of the reservation query: available_at, then created_at. */
    predicate NotAfter(other: Job) {
      availableAt < other.availableAt || (availableAt == other.availableAt && createdAt <= other.createdAt)
    }

    /** The WHERE clause of the cleanup scan. */
    predicate ExpiredAt(now: int) {
      status == Completed && expiresAt.Some? && expiresAt.value <= now
    }
  }

  /** SHA-256 is taken to be injective, so a lock key is its prefix and its preimage. */
  datatype LockKey = LockKey(prefix: string, preimage: string)

  datatype Lock = Lock(jobId: JobId, expiresAt: Option<int>)

  datatype LockRow = LockRow(key: LockKey, lock: Lock)

  datatype Tables = Tables(jobs: map<JobId, Job>, locks: map<LockKey, Lock>, stats: map<string, nat>)

  datatype Message = Message(jobType: string, payload: string)

  datatype Options = Options(
    queue: string,
    processAt: Option<int>,
    maxRetry: int,
    timeout: int,
    uniqueFor: int,
    retention: int,
    taskId: string)

  /** The clock readings one Dispatch call takes, in the order it takes them. */
  datatype Readings = Readings(available: int, locks: int, transaction: int, created: int)
  {
    predicate Ordered(from: int, upto: int) {
      from <= available <= locks <= transaction <= created <= upto
    }
  }

  // ---------------------------------------------------------------- arithmetic

  function DurationSeconds(duration: int): int {
    if duration <= 0 then 0
    else
      var seconds := duration / SECOND;
      if seconds == 0 then 1 else seconds
  }

  function Pow2(n: nat): nat { if n == 0 then 1 else 2 * Pow2(n - 1) }

  function RetryDelay(attempt: int): int {
    var exponent := Min(Max(attempt - 1, 0), 12);
    Min(SECOND * Pow2(exponent), HOUR)
  }

  function HeartbeatInterval(reservation: int): int {
    var interval := reservation / 3;
    if interval < SECOND then SECOND else interval
  }

  // ------------------------------------------------------------------ dispatch

  function HashLockKey(prefix: string, value: string): LockKey { LockKey(prefix, value) }

  function UniqueValue(queue: string, jobType: string, payload: string): string {
    queue + [NUL] + jobType + [NUL] + payload
  }

  function QueueName(options: Options): string {
    if options.queue == "" then "default" else options.queue
  }

  function TaskKey(taskId: string): LockKey { HashLockKey("task", taskId) }

  function UniqueKey(message: Message, options: Options): LockKey {
    HashLockKey("unique", UniqueValue(QueueName(options), message.jobType, message.payload))
  }

  function NewRecord(message: Message, options: Options, at: Readings): Job {
    Job(
      QueueName(options), message.jobType, message.payload, Pending, 0,
      if options.maxRetry <= 0 then DEFAULT_MAX_RETRY else options.maxRetry,
      DurationSeconds(options.timeout), DurationSeconds(options.retention),
      if options.processAt.None? then at.available else options.processAt.value,
      None, None, None, None, None, None, at.created)
  }

  function DispatchLocks(id: JobId, message: Message, options: Options, now: int): seq<LockRow> {
    (if options.taskId != "" then [LockRow(TaskKey(options.taskId), Lock(id, None))] else [])
    + (if options.uniqueFor > 0
       then [LockRow(UniqueKey(message, options), Lock(id, Some(now + options.uniqueFor)))] else [])
  }

  /** The lock table after the statements for the first n rows: the expired namesakes of new expiring
      locks are dropped. */
  function ClearExpired(locks: map<LockKey, Lock>, rows: seq<LockRow>, n: nat, now: int): map<LockKey, Lock>
    requires n <= |rows|
  {
    if n == 0 then locks
    else
      var row, before := rows[n - 1], ClearExpired(locks, rows, n - 1, now);
      if row.lock.expiresAt.Some? && row.key in before
         && before[row.key].expiresAt.Some? && before[row.key].expiresAt.value <= now
      then before - {row.key} else before
  }

  /** The lock table with the first n rows inserted. */
  function InsertLocks(locks: map<LockKey, Lock>, rows: seq<LockRow>, n: nat): map<LockKey, Lock>
    requires n <= |rows|
  {
    if n == 0 then locks else InsertLocks(locks, rows, n - 1)[rows[n - 1].key := rows[n - 1].lock]
  }

  /** No primary key collides: neither the job's nor a lock's, once the expired namesakes are gone. */
  predicate Accepts(t: Tables, id: JobId, message: Message, options: Options, at: Readings) {
    var rows := DispatchLocks(id, message, options, at.locks);
    var cleared := ClearExpired(t.locks, rows, |rows|, at.transaction);
    id !in t.jobs && forall i :: 0 <= i < |rows| ==> rows[i].key !in cleared
  }

  /** A duplicate key rolls the whole transaction back, the removal of expired locks included. */
  function DispatchTx(t: Tables, id: JobId, message: Message, options: Options, at: Readings): Tables {
    var rows := DispatchLocks(id, message, options, at.locks);
    if Accepts(t, id, message, options, at) then
      t.(jobs := t.jobs[id := NewRecord(message, options, at)],
         locks := InsertLocks(ClearExpired(t.locks, rows, |rows|, at.transaction), rows, |rows|))
    else t
  }

  // --------------------------------------------------------------- reservation

  predicate Eligible(jobs: map<JobId, Job>, queue: string, now: int, id: JobId) {
    id in jobs && jobs[id].queue == queue && jobs[id].EligibleAt(now)
  }

  ghost predicate Earliest(jobs: map<JobId, Job>, queue: string, now: int, id: JobId) {
    && Eligible(jobs, queue, now, id)
    && forall other :: Eligible(jobs, queue, now, other) ==> jobs[id].NotAfter(jobs[other])
  }

  function Leased(job: Job, token: Token, now: int, reservation: int): Job {
    job.(status := Active, attempts := job.attempts + 1,
         leaseToken := Some(token), leasedUntil := Some(now + reservation))
  }

  function ReserveTx(t: Tables, id: JobId, token: Token, now: int, reservation: int): Tables
    requires id in t.jobs
  {
    t.(jobs := t.jobs[id := Leased(t.jobs[id], token, now, reservation)])
  }

  // ------------------------------------------------- transitions under a lease

  /** The guard every fenced statement carries: id, active status and lease token all match. */
  predicate Fenced(t: Tables, id: JobId, token: Token) {
    id in t.jobs && t.jobs[id].status == Active && t.jobs[id].leaseToken == Some(token)
  }

  function HeartbeatTx(t: Tables, id: JobId, token: Token, now: int, reservation: int): Tables {
    if Fenced(t, id, token)
    then t.(jobs := t.jobs[id := t.jobs[id].(leasedUntil := Some(now + reservation))])
    else t
  }

  function Processed(t: Tables, queue: string): nat {
    if queue in t.stats then t.stats[queue] else 0
  }

  function CountProcessed(t: Tables, queue: string): Tables {
    t.(stats := t.stats[queue := Processed(t, queue) + 1])
  }

  function DropOwnedLocks(locks: map<LockKey, Lock>, ids: set<JobId>): map<LockKey, Lock> {
    map key | key in locks && !(locks[key].expiresAt.None? && locks[key].jobId in ids) :: locks[key]
  }

  function Retained(job: Job, now: int, retentionSecs: int): Job {
    job.(status := Completed, completedAt := Some(now), expiresAt := Some(now + retentionSecs * SECOND),
         leaseToken := None, leasedUntil := None)
  }

  /** Completion decides from the worker's own copy of the row: its retention and its queue. */
  function CompleteTx(t: Tables, id: JobId, copy: Job, token: Token, now: int): Tables {
    if !Fenced(t, id, token) then t
    else if copy.retentionSecs <= 0 then
      CountProcessed(t.(jobs := t.jobs - {id}, locks := DropOwnedLocks(t.locks, {id})), copy.queue)
    else
      CountProcessed(t.(jobs := t.jobs[id := Retained(t.jobs[id], now, copy.retentionSecs)]), copy.queue)
  }

  function Exhausted(copy: Job): bool { copy.attempts > copy.maxRetry }

  /** Failure decides from the worker's own copy of the row: its attempts and its retry budget. */
  function Failing(job: Job, copy: Job, now: int, message: string): Job {
    job.(status := if Exhausted(copy) then Failed else Retry,
         availableAt := if Exhausted(copy) then now else now + RetryDelay(copy.attempts),
         lastError := Some(message), lastFailedAt := Some(now),
         leaseToken := None, leasedUntil := None)
  }

  function FailTx(t: Tables, id: JobId, copy: Job, token: Token, now: int, message: string): Tables {
    if Fenced(t, id, token)
    then t.(jobs := t.jobs[id := Failing(t.jobs[id], copy, now, message)])
    else t
  }

  // ------------------------------------------------------------------- cleanup

  function CleanLocksTx(t: Tables, now: int): Tables {
    t.(locks := map key | key in t.locks
                          && !(t.locks[key].expiresAt.Some? && t.locks[key].expiresAt.value <= now)
                  :: t.locks[key])
  }

  function ExpiredIds(jobs: map<JobId, Job>, now: int): set<JobId> {
    set id | id in jobs && jobs[id].ExpiredAt(now)
  }

  /** What the scan may return: any of the expired ids, all of them unless the limit cuts it short. */
  predicate ScanResult(jobs: map<JobId, Job>, now: int, ids: set<JobId>) {
    && ids <= ExpiredIds(jobs, now)
    && |ids| <= SCAN_LIMIT
    && (|ids| == SCAN_LIMIT || ids == ExpiredIds(jobs, now))
  }

  /** The delete transaction trusts the scanned ids: it does not look at the status again. */
  function SweepTx(t: Tables, ids: set<JobId>): Tables {
    t.(jobs := t.jobs - ids, locks := DropOwnedLocks(t.locks, ids))
  }

  // ----------------------------------------------------------------- inspector

  predicate Selected(jobs: map<JobId, Job>, queue: string, target: string, id: JobId) {
    id in jobs && jobs[id].queue == queue && jobs[id].status == Failed && (target == "all" || id == target)
  }

  function SelectedIds(jobs: map<JobId, Job>, queue: string, target: string): set<JobId> {
    set id | id in jobs && Selected(jobs, queue, target, id)
  }

  function Revived(job: Job, now: int): Job {
    job.(status := Retry, attempts := 0, availableAt := now, lastError := None, lastFailedAt := None)
  }

  function OperatorRetryTx(t: Tables, queue: string, target: string, now: int): Tables {
    t.(jobs := map id | id in t.jobs ::
         if Selected(t.jobs, queue, target, id) then Revived(t.jobs[id], now) else t.jobs[id])
  }

  function DropJobLocks(locks: map<LockKey, Lock>, ids: set<JobId>): map<LockKey, Lock> {
    map key | key in locks && locks[key].jobId !in ids :: locks[key]
  }

  function OperatorDeleteTx(t: Tables, queue: string, target: string): Tables {
    var ids := SelectedIds(t.jobs, queue, target);
    t.(jobs := t.jobs - ids, locks := DropJobLocks(t.locks, ids))
  }
}
