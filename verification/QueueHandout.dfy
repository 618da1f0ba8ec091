/** When a job can be handed out next, step by step and exactly, and in which order: the reservation query
    read from the outside, through what dispatches, failures, leases and operators leave behind. */
module QueueHandout {
  import opened Prelude
  import opened QueueTables
  import opened QueueSystem
  import opened QueueInvariant
  import opened QueueLocks
  import opened QueueFencing
  import opened QueueRetries

  /** A dispatched job is handed out by its own queue only, from its start time on. */
  lemma AfterDispatch(s: System, e: Step, queue: string, now: int)
    requires Enabled(s, e) && Accepted(s, e)
    ensures Eligible(Apply(s, e).t.jobs, queue, now, e.id)
            <==> queue == (if e.options.queue == "" then "default" else e.options.queue)
                 && (if e.options.processAt.Some? then e.options.processAt.value else e.at.available) <= now
  {
    hide InsertLocks, ClearExpired, DispatchLocks;
  }

  /** A failed job with budget left comes back exactly when its delay has passed; one without never does. */
  lemma AfterFailure(s: System, e: Step, id: JobId, queue: string, now: int)
    requires Inv(s) && Enabled(s, e) && RecordsFailure(s, e, id)
    ensures var job := s.t.jobs[id];
            Eligible(Apply(s, e).t.jobs, queue, now, id)
            <==> queue == job.queue && job.attempts <= job.maxRetry
                 && e.now + Min(SECOND * Pow2(Max(job.attempts - 1, 0)), 3600 * SECOND) <= now
    ensures s.t.jobs[id].maxRetry < s.t.jobs[id].attempts ==>
              Apply(s, e).t.jobs[id].status == Failed && Apply(s, e).t.jobs[id].availableAt == e.now
  {
    assert Coherent(s, id);
    RetryDelayIsCappedPower(s.t.jobs[id].attempts);
    hide RetryDelay, Pow2;
  }

  /** In particular every failed job with budget left comes back within the hour. */
  lemma FailedJobComesBack(s: System, e: Step, id: JobId, now: int)
    requires Inv(s) && Enabled(s, e) && RecordsFailure(s, e, id)
    requires s.t.jobs[id].attempts <= s.t.jobs[id].maxRetry && e.now + 3600 * SECOND <= now
    ensures Eligible(Apply(s, e).t.jobs, s.t.jobs[id].queue, now, id)
  {
    AfterFailure(s, e, id, s.t.jobs[id].queue, now);
    hide Pow2, Enabled, Apply, Eligible;
  }

  /** An operator's retry hands a failed job of the queue out again from its reading on. */
  lemma AfterOperatorRetry(s: System, e: Step, id: JobId, queue: string, now: int)
    requires Inv(s) && Enabled(s, e) && e.OperatorRetry? && id in s.t.jobs
    requires s.t.jobs[id].queue == e.queue && s.t.jobs[id].status == Failed
    requires e.target == "all" || e.target == id
    ensures Eligible(Apply(s, e).t.jobs, queue, now, id) <==> queue == e.queue && e.now <= now
    ensures id in Apply(s, e).t.jobs && Apply(s, e).t.jobs[id].attempts == 0
  {}

  /** A reserved job is nobody else's until its lease runs out, and anybody's in its queue from then on. */
  lemma AfterReservation(s: System, e: Step, id: JobId, queue: string, now: int)
    requires Inv(s) && Enabled(s, e) && e.Reserve? && e.choice == Some(id)
    ensures Eligible(Apply(s, e).t.jobs, queue, now, id) <==> queue == e.queue && e.now + e.reservation <= now
  {}

  /** A heartbeat moves that moment to its own reading plus the reservation. */
  lemma AfterHeartbeat(s: System, e: Step, queue: string, now: int)
    requires Inv(s) && Enabled(s, e) && e.Heartbeat? && Fenced(s.t, s.held[e.token].id, e.token)
    ensures var id := s.held[e.token].id;
            Eligible(Apply(s, e).t.jobs, queue, now, id)
            <==> queue == s.t.jobs[id].queue && e.now + s.held[e.token].reservation <= now
  {}

  /** A completed job is never handed out again: it is gone, or kept until a cleanup may scan it, which is
      from its retention on. */
  lemma AfterCompletion(s: System, e: Step, queue: string, now: int)
    requires Inv(s) && Enabled(s, e) && e.Complete? && Finishes(s, e, e.token)
    ensures var id, job, jobs' := s.held[e.token].id, s.t.jobs[s.held[e.token].id], Apply(s, e).t.jobs;
            && !Eligible(jobs', queue, now, id)
            && (id in jobs' <==> 0 < job.retentionSecs)
            && (id in ExpiredIds(jobs', now) <==> 0 < job.retentionSecs && e.now + job.retentionSecs * SECOND <= now)
            && (id in jobs' ==> jobs'[id].completedAt == Some(e.now))
  {
    hide DropOwnedLocks;
    assert Coherent(s, s.held[e.token].id);
  }

  /** Whatever is reserved was first: no row of the queue that waits with its start behind it, or whose lease
      has run out, has an earlier start, or the same start and an earlier creation. */
  lemma ReservationTakesTheFirst(s: System, e: Step, other: JobId)
    requires Enabled(s, e) && e.Reserve? && e.choice.Some?
    requires other in s.t.jobs && s.t.jobs[other].queue == e.queue
    requires var job := s.t.jobs[other];
             || (job.status == Pending && job.availableAt <= e.now)
             || (job.status == Retry && job.availableAt <= e.now)
             || (job.status == Active && job.leasedUntil.Some? && job.leasedUntil.value <= e.now)
    ensures var first, job := s.t.jobs[e.choice.value], s.t.jobs[other];
            && first.availableAt <= job.availableAt
            && (first.availableAt == job.availableAt ==> first.createdAt <= job.createdAt)
  {
    assert Eligible(s.t.jobs, e.queue, e.now, other);
  }
}
