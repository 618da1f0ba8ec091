/** At most one accepted job per schedule and minute, across any number of scheduler processes: the
    runner's task IDs and minimum retention meet the queue protocol. */
module SchedulerOnce {
  import opened Prelude
  import opened Calendar
  import opened QueueTables
  import opened QueueSystem
  import opened QueueInvariant
  import opened QueueLocks
  import opened Scheduler

  /** Some scheduler process, working on this minute, dispatches this definition, which is due then.  It
      takes its readings after its tick, and the tick is not before the minute. */
  ghost predicate ScheduledBy(e: Step, d: Definition, minute: nat) {
    && e.Dispatch?
    && FiresAt(d, minute)
    && d.payload.Some? && e.message == Message(d.jobType, d.payload.value)
    && e.options == RunOptions(d, minute)
    && e.id == TaskId(d.name, minute)
    && minute * MINUTE <= e.at.available
  }

  ghost predicate Scheduled(e: Step, name: string, minute: nat) {
    exists d: Definition :: d.name == name && ScheduledBy(e, d, minute)
  }

  ghost predicate StartsWithSchedule(id: JobId) { "schedule:" <= id }

  /** Every dispatch in the run is a scheduler's, or uses an id outside the scheduler's name space. */
  ghost predicate SchedulerOwnsItsIds(run: Run) {
    forall k: nat :: k < |run.steps| ==> OwnedAt(run, k)
  }

  ghost predicate OwnedAt(run: Run, k: nat)
    requires k < |run.steps|
  {
    run.steps[k].Dispatch? ==> Owned(run.steps[k])
  }

  ghost predicate Owned(e: Step)
    requires e.Dispatch?
  {
    StartsWithSchedule(e.id) ==> exists name, minute: nat :: Scheduled(e, name, minute)
  }

  /** Before this instant the job of the minute cannot be cleaned up. */
  function Horizon(minute: nat): int { (minute + 2) * MINUTE }

  /** Up to the horizon: no cleanup has scanned the id; its row keeps two minutes of retention, was
      dispatched and reserved no earlier than the minute, and expires no earlier than the horizon. */
  ghost predicate Kept(s: System, id: JobId, minute: nat) {
    s.clock < Horizon(minute) ==>
      && (forall scan :: scan in s.scans ==> id !in s.scans[scan])
      && (id in s.t.jobs ==> KeptRow(s, s.t.jobs[id], minute))
  }

  ghost predicate KeptRow(s: System, job: Job, minute: nat) {
    && minute * MINUTE <= s.clock
    && 120 <= job.retentionSecs
    && (job.status == Completed ==> job.expiresAt.Some? && Horizon(minute) <= job.expiresAt.value)
    && (job.leaseToken.Some? ==>
          job.leaseToken.value in s.held && minute * MINUTE <= s.held[job.leaseToken.value].since)
  }

  lemma ScheduledRetention(e: Step, name: string, minute: nat)
    requires Scheduled(e, name, minute)
    ensures 120 <= DurationSeconds(e.options.retention)
    ensures e.options.taskId == e.id
  {
    assert MIN_RETENTION <= e.options.retention;
    assert 120 * SECOND / SECOND == 120;
    Quotient(e.options.retention);
  }

  lemma Quotient(duration: int)
    requires 120 * SECOND <= duration
    ensures 120 <= duration / SECOND
  {}

  lemma DispatchKeeps(s: System, e: Step, id: JobId, minute: nat)
    requires Inv(s) && Enabled(s, e) && e.Dispatch? && Kept(s, id, minute)
    requires e.id == id ==> 120 <= DurationSeconds(e.options.retention) && minute * MINUTE <= e.at.available
    ensures Kept(Apply(s, e), id, minute)
  {
    hide InsertLocks, ClearExpired, DispatchLocks, DurationSeconds;
  }

  lemma CompletionKeeps(s: System, e: Step, id: JobId, minute: nat)
    requires Inv(s) && Enabled(s, e) && e.Complete? && Kept(s, id, minute)
    ensures Kept(Apply(s, e), id, minute)
  {
    if id in s.t.jobs { assert Coherent(s, id); }
  }

  lemma ReservationKeeps(s: System, e: Step, id: JobId, minute: nat)
    requires Inv(s) && Enabled(s, e) && e.Reserve? && Kept(s, id, minute)
    ensures Kept(Apply(s, e), id, minute)
  {
    if id in s.t.jobs { assert Coherent(s, id); }
  }

  lemma ScanKeeps(s: System, e: Step, id: JobId, minute: nat)
    requires Inv(s) && Enabled(s, e) && e.Scan? && Kept(s, id, minute)
    ensures Kept(Apply(s, e), id, minute)
  {
    assert e.ids <= ExpiredIds(s.t.jobs, e.now);
  }

  lemma ActedRowKeeps(s: System, e: Step, id: JobId, minute: nat)
    requires Inv(s) && Enabled(s, e) && Kept(s, id, minute)
    requires !e.Dispatch? && !e.Complete? && !e.Reserve? && !e.Scan?
    requires id in s.t.jobs && ActsOn(s, e, id)
    ensures Kept(Apply(s, e), id, minute)
  {
    hide RetryDelay;
    assert Coherent(s, id);
  }

  lemma UntouchedRowKeeps(s: System, e: Step, id: JobId, minute: nat)
    requires Inv(s) && Enabled(s, e) && Kept(s, id, minute) && !e.Scan?
    requires id in s.t.jobs && id in Apply(s, e).t.jobs && !ActsOn(s, e, id)
    ensures Kept(Apply(s, e), id, minute)
  {
    StepRemembers(s, e);
    UntouchedRow(s, e, id);
    ScansShrink(s, e);
    hide Apply, Enabled;
  }

  lemma AbsentRowKeeps(s: System, e: Step, id: JobId, minute: nat)
    requires Enabled(s, e) && Kept(s, id, minute) && !e.Scan? && id !in Apply(s, e).t.jobs
    ensures Kept(Apply(s, e), id, minute)
  {
    StepRemembers(s, e);
    ScansShrink(s, e);
    hide Apply, Enabled;
  }

  lemma RowsOnlyByDispatch(s: System, e: Step, id: JobId)
    requires Enabled(s, e) && !e.Dispatch? && id in Apply(s, e).t.jobs
    ensures id in s.t.jobs
  {}

  lemma OtherStepKeeps(s: System, e: Step, id: JobId, minute: nat)
    requires Inv(s) && Enabled(s, e) && Kept(s, id, minute)
    requires !e.Dispatch? && !e.Complete? && !e.Reserve? && !e.Scan?
    ensures Kept(Apply(s, e), id, minute)
  {
    hide Apply, Enabled, Inv, Kept, ActsOn;
    if id !in Apply(s, e).t.jobs {
      AbsentRowKeeps(s, e, id, minute);
    } else {
      RowsOnlyByDispatch(s, e, id);
      if ActsOn(s, e, id) { ActedRowKeeps(s, e, id, minute); } else { UntouchedRowKeeps(s, e, id, minute); }
    }
  }

  lemma ScansShrink(s: System, e: Step)
    requires Enabled(s, e) && !e.Scan?
    ensures Apply(s, e).scans.Keys <= s.scans.Keys
    ensures forall scan :: scan in Apply(s, e).scans ==> Apply(s, e).scans[scan] == s.scans[scan]
  {}

  lemma StepKeeps(s: System, e: Step, id: JobId, minute: nat)
    requires Inv(s) && Enabled(s, e) && Kept(s, id, minute)
    requires e.Dispatch? && e.id == id ==>
               120 <= DurationSeconds(e.options.retention) && minute * MINUTE <= e.at.available
    ensures Kept(Apply(s, e), id, minute)
  {
    hide Apply, Enabled, Kept, Inv;
    match e
    case Dispatch(_, _, _, _) => DispatchKeeps(s, e, id, minute);
    case Complete(_, _) => CompletionKeeps(s, e, id, minute);
    case Reserve(_, _, _, _, _) => ReservationKeeps(s, e, id, minute);
    case Scan(_, _, _) => ScanKeeps(s, e, id, minute);
    case _ => OtherStepKeeps(s, e, id, minute);
  }

  /** By injectivity of task IDs, whoever dispatches this id is a scheduler working on this minute. */
  lemma DispatcherOfTaskId(e: Step, name: string, minute: nat)
    requires e.Dispatch? && Owned(e) && e.id == TaskId(name, minute)
    ensures 120 <= DurationSeconds(e.options.retention) && minute * MINUTE <= e.at.available
    ensures e.options.taskId == e.id
  {
    hide Stamp, DurationSeconds, RunOptions;
    assert "schedule:" <= TaskId(name, minute);
    var name', minute' :| Scheduled(e, name', minute');
    TaskIdInjective(name, minute, name', minute');
    ScheduledRetention(e, name, minute);
  }

  lemma {:induction false} RunKeeps(run: Run, k: nat, name: string, minute: nat)
    requires run.Valid() && SchedulerOwnsItsIds(run) && k < |run.states|
    ensures Kept(run.states[k], TaskId(name, minute), minute)
  {
    hide TaskId, DurationSeconds, Kept, Enabled, Apply, Inv, Owned;
    if k > 0 {
      RunKeeps(run, k - 1, name, minute);
      ReachableInv(run, k - 1);
      assert run.Follows(k - 1);
      var e := run.steps[k - 1];
      assert OwnedAt(run, k - 1);
      if e.Dispatch? && e.id == TaskId(name, minute) { DispatcherOfTaskId(e, name, minute); }
      StepKeeps(run.states[k - 1], e, TaskId(name, minute), minute);
    } else {
      InitialKept(TaskId(name, minute), minute);
    }
  }

  lemma InitialKept(id: JobId, minute: nat)
    ensures Kept(INITIAL, id, minute)
  {}

  lemma KeptRowStays(s: System, e: Step, id: JobId, minute: nat)
    requires Inv(s) && Enabled(s, e) && Kept(s, id, minute) && s.clock < Horizon(minute)
    requires id in s.t.jobs && !Deletes(s, e, id)
    ensures id in Apply(s, e).t.jobs
  {
    assert Coherent(s, id);
  }

  lemma {:induction false} JobStaysUntilHorizon(run: Run, i: nat, k: nat, name: string, minute: nat)
    requires run.Valid() && SchedulerOwnsItsIds(run) && i <= k < |run.states|
    requires TaskId(name, minute) in run.states[i].t.jobs
    requires run.states[k].clock < Horizon(minute)
    requires forall m :: i <= m < k ==> !Deletes(run.states[m], run.steps[m], TaskId(name, minute))
    ensures TaskId(name, minute) in run.states[k].t.jobs
    decreases k
  {
    hide TaskId;
    if i < k {
      RunRemembers(run, k - 1, k);
      JobStaysUntilHorizon(run, i, k - 1, name, minute);
      RunKeeps(run, k - 1, name, minute);
      ReachableInv(run, k - 1);
      assert run.Follows(k - 1);
      KeptRowStays(run.states[k - 1], run.steps[k - 1], TaskId(name, minute), minute);
    }
  }

  lemma AcceptedJobExists(s: System, e: Step)
    requires Accepted(s, e)
    ensures e.id !in s.t.jobs && e.id in Apply(s, e).t.jobs
  {}

  lemma AcceptedJobAppears(run: Run, i: nat)
    requires run.Valid() && i < |run.steps| && Accepted(run.states[i], run.steps[i])
    ensures run.steps[i].id !in run.states[i].t.jobs && run.steps[i].id in run.states[i + 1].t.jobs
  {
    assert run.Follows(i);
    AcceptedJobExists(run.states[i], run.steps[i]);
  }

  /** However many scheduler processes dispatch a schedule for a minute, and however its job is run,
      completed, retried and cleaned up - overlapping cleanups included - after one accepted dispatch no
      second one is accepted before two minutes past that minute, unless an operator deletes the job. */
  lemma AtMostOncePerScheduleAndMinute(run: Run, i: nat, j: nat, name: string, minute: nat)
    requires run.Valid() && SchedulerOwnsItsIds(run) && i < j < |run.steps|
    requires Accepted(run.states[i], run.steps[i]) && run.steps[i].id == TaskId(name, minute)
    requires Accepted(run.states[j], run.steps[j]) && run.steps[j].id == TaskId(name, minute)
    requires forall m :: i < m < j ==> !Deletes(run.states[m], run.steps[m], TaskId(name, minute))
    ensures Horizon(minute) <= run.states[j].clock
  {
    hide TaskId, Accepted, Deletes;
    AcceptedJobAppears(run, i);
    AcceptedJobAppears(run, j);
    if run.states[j].clock < Horizon(minute) { JobStaysUntilHorizon(run, i + 1, j, name, minute); }
  }

  /** So when every scheduler's dispatch for the minute commits within two minutes of it, there is at
      most one accepted job for the schedule and minute in the whole run. */
  lemma PromptSchedulersDispatchOnce(run: Run, i: nat, j: nat, name: string, minute: nat)
    requires run.Valid() && SchedulerOwnsItsIds(run) && i < |run.steps| && j < |run.steps|
    requires Accepted(run.states[i], run.steps[i]) && run.steps[i].id == TaskId(name, minute)
    requires Accepted(run.states[j], run.steps[j]) && run.steps[j].id == TaskId(name, minute)
    requires run.states[i].clock < Horizon(minute) && run.states[j].clock < Horizon(minute)
    requires forall m :: 0 <= m < |run.steps| ==> !Deletes(run.states[m], run.steps[m], TaskId(name, minute))
    ensures i == j
  {
    if i < j { AtMostOncePerScheduleAndMinute(run, i, j, name, minute); }
    if j < i { AtMostOncePerScheduleAndMinute(run, j, i, name, minute); }
  }
}
