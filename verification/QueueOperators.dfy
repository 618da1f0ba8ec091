/** What the operator's commands and the cleanups reach, and what they leave alone. */
module QueueOperators {
  import opened Prelude
  import opened QueueTables
  import opened QueueSystem
  import opened QueueLocks
  import opened QueueStore

  /** The command means this row: a failed one of the queue, named by the target or meant by "all". */
  ghost predicate Means(job: Job, id: JobId, queue: string, target: string) {
    job.queue == queue && job.status == Failed && (target == "all" || target == id)
  }

  /** An operator command spares every row it does not mean, and that row's locks. */
  lemma OperatorSparesOthers(s: System, e: Step, id: JobId)
    requires e.OperatorRetry? || e.OperatorDelete?
    requires id in s.t.jobs && !Means(s.t.jobs[id], id, e.queue, e.target)
    ensures id in Apply(s, e).t.jobs && Apply(s, e).t.jobs[id] == s.t.jobs[id]
    ensures forall key :: key in s.t.locks && s.t.locks[key].jobId == id ==>
              key in Apply(s, e).t.locks && Apply(s, e).t.locks[key] == s.t.locks[key]
  {}

  /** A retry changes of a meant row its status, attempts, start and failure, nothing else, and no lock. */
  lemma RetryStartsOver(s: System, e: Step, id: JobId)
    requires e.OperatorRetry? && id in s.t.jobs && Means(s.t.jobs[id], id, e.queue, e.target)
    ensures id in Apply(s, e).t.jobs && Apply(s, e).t.locks == s.t.locks
    ensures var job, job' := s.t.jobs[id], Apply(s, e).t.jobs[id];
            && job'.status == Retry && job'.attempts == 0 && job'.availableAt == e.now
            && job'.lastError.None? && job'.lastFailedAt.None?
            && job' == job.(status := Retry, attempts := 0, availableAt := e.now,
                            lastError := None, lastFailedAt := None)
  {}

  /** A delete forgets a meant job altogether: no row, no lock of either kind; so the next dispatch of its id
      is accepted unless another job holds its uniqueness lock. */
  lemma DeleteForgets(s: System, e: Step, id: JobId, message: Message, options: Options, at: Readings)
    requires e.OperatorDelete? && id in s.t.jobs && Means(s.t.jobs[id], id, e.queue, e.target)
    ensures id !in Apply(s, e).t.jobs
    ensures forall key :: key in Apply(s, e).t.locks ==> Apply(s, e).t.locks[key].jobId != id
    ensures (forall key :: key in s.t.locks && key in {TaskKey(options.taskId), UniqueKey(message, options)} ==>
               s.t.locks[key].jobId == id)
            ==> Accepts(Apply(s, e).t, id, message, options, at)
  {
    hide UniqueKey, TaskKey;
    AcceptsMeaning(Apply(s, e).t, id, message, options, at);
  }

  /** The lock cleanup removes exactly the locks that have expired by its reading, and no row. */
  lemma LockCleanupIsExact(s: System, e: Step, key: LockKey)
    requires e.CleanLocks?
    ensures key in Apply(s, e).t.locks
            <==> key in s.t.locks && (s.t.locks[key].expiresAt.None? || e.now < s.t.locks[key].expiresAt.value)
    ensures key in Apply(s, e).t.locks ==> Apply(s, e).t.locks[key] == s.t.locks[key]
    ensures Apply(s, e).t.jobs == s.t.jobs && Apply(s, e).t.stats == s.t.stats
  {}

  /** A cleanup nobody interferes with is the cleanup's steps in a row; a refused statement is a step that
      did not happen. */
  lemma CleanupIsItsSteps(s: System, now: int, scan: nat, scanned: set<JobId>, faults: Faults)
    requires scan !in s.scans
    ensures var unlocked := if faults.locks then s else Apply(s, CleanLocks(now));
            var last := if faults.scan then unlocked
                        else if faults.sweep then Apply(Apply(unlocked, Scan(scan, now, scanned)), Abandon(scan))
                        else Apply(Apply(unlocked, Scan(scan, now, scanned)), Sweep(scan));
            last.t == CleanupTx(s.t, now, scanned, faults) && last.scans == s.scans
  {
    assert s.scans[scan := scanned] - {scan} == s.scans;
  }
}
