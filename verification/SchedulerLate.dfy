/** A scheduler process that works on its minute late: the guarantee of SchedulerOnce ends exactly two
    minutes after the minute, and what decides from then on is whether somebody removed the job's row. */
module SchedulerLate {
  import opened Prelude
  import opened Calendar
  import opened QueueTables
  import opened QueueSystem
  import opened QueueInvariant
  import opened QueueLocks
  import opened Scheduler
  import opened SchedulerOnce
  import opened QueueScenarios

  /** The row of the id is removed: by an operator, or by a cleanup that commits past the horizon. */
  ghost predicate Removed(s: System, e: Step, id: JobId, minute: nat) {
    Deletes(s, e, id) || (e.Sweep? && e.scan in s.scans && id in s.scans[e.scan] && Horizon(minute) <= s.clock)
  }

  lemma RetentionNeverChanges(s: System, e: Step, id: JobId)
    requires Inv(s) && Enabled(s, e) && id in s.t.jobs && id in Apply(s, e).t.jobs
    ensures Apply(s, e).t.jobs[id].retentionSecs == s.t.jobs[id].retentionSecs
  {
    hide InsertLocks, ClearExpired, DispatchLocks, RetryDelay;
  }

  lemma NewRowIsDispatched(s: System, e: Step, id: JobId)
    requires Enabled(s, e) && id !in s.t.jobs && id in Apply(s, e).t.jobs
    ensures Accepted(s, e) && e.id == id
    ensures Apply(s, e).t.jobs[id].retentionSecs == DurationSeconds(e.options.retention)
  {
    hide InsertLocks, ClearExpired, DispatchLocks, DurationSeconds;
  }

  lemma {:induction false} RowRetains(run: Run, k: nat, name: string, minute: nat)
    requires run.Valid() && SchedulerOwnsItsIds(run) && k < |run.states|
    ensures var t := run.states[k].t;
            TaskId(name, minute) in t.jobs ==> 120 <= t.jobs[TaskId(name, minute)].retentionSecs
  {
    hide TaskId, DurationSeconds, Enabled, Apply, Inv, Owned, Accepted;
    if k > 0 {
      RowRetains(run, k - 1, name, minute);
      ReachableInv(run, k - 1);
      assert run.Follows(k - 1);
      var s, e, id := run.states[k - 1], run.steps[k - 1], TaskId(name, minute);
      if id in run.states[k].t.jobs {
        if id in s.t.jobs {
          RetentionNeverChanges(s, e, id);
        } else {
          NewRowIsDispatched(s, e, id);
          AcceptedIsDispatch(s, e);
          assert OwnedAt(run, k - 1);
          DispatcherOfTaskId(e, name, minute);
        }
      }
    }
  }

  lemma RowLeavesIffRemoved(s: System, e: Step, id: JobId, minute: nat)
    requires Inv(s) && Enabled(s, e) && Kept(s, id, minute)
    requires id in s.t.jobs && 120 <= s.t.jobs[id].retentionSecs
    ensures id !in Apply(s, e).t.jobs <==> Removed(s, e, id, minute)
  {
    assert Coherent(s, id);
  }

  /** From an accepted dispatch on, until the next one, the row is there exactly while nobody removed it. */
  lemma {:induction false} PresentUntilRemoved(run: Run, i: nat, k: nat, name: string, minute: nat)
    requires run.Valid() && SchedulerOwnsItsIds(run) && i < k < |run.states|
    requires AcceptsId(run, i, TaskId(name, minute))
    requires forall m :: i < m < k ==> !AcceptsId(run, m, TaskId(name, minute))
    ensures TaskId(name, minute) in run.states[k].t.jobs
            <==> forall m :: i < m < k ==> !Removed(run.states[m], run.steps[m], TaskId(name, minute), minute)
    decreases k
  {
    hide TaskId, Accepted, Removed, Apply, Enabled, Inv, Kept;
    var id := TaskId(name, minute);
    if k == i + 1 {
      AcceptedJobAppears(run, i);
    } else {
      PresentUntilRemoved(run, i, k - 1, name, minute);
      ReachableInv(run, k - 1);
      RunKeeps(run, k - 1, name, minute);
      RowRetains(run, k - 1, name, minute);
      assert run.Follows(k - 1);
      var s, e := run.states[k - 1], run.steps[k - 1];
      assert !AcceptsId(run, k - 1, id);
      if id in s.t.jobs {
        RowLeavesIffRemoved(s, e, id, minute);
      } else if id in run.states[k].t.jobs {
        NewRowIsDispatched(s, e, id);
      }
    }
  }

  /** When exactly a schedule and minute are dispatched once more: the next dispatch after an accepted one
      is accepted as well if and only if in between an operator deleted the job, or a cleanup swept it
      two minutes or more after the minute - and, for a schedule that asks for uniqueness, its lock is
      absent or expired. */
  lemma DispatchedAgainIffRemoved(run: Run, i: nat, j: nat, name: string, minute: nat)
    requires run.Valid() && SchedulerOwnsItsIds(run) && i < j < |run.steps|
    requires AcceptsId(run, i, TaskId(name, minute))
    requires forall m :: i < m < j ==> !AcceptsId(run, m, TaskId(name, minute))
    requires run.steps[j].Dispatch? && run.steps[j].id == TaskId(name, minute)
    ensures var e, t := run.steps[j], run.states[j].t;
            AcceptsId(run, j, TaskId(name, minute))
            <==> (exists m :: i < m < j && Removed(run.states[m], run.steps[m], TaskId(name, minute), minute))
                 && (e.options.uniqueFor > 0 ==>
                       Expired(t.locks, UniqueKey(e.message, e.options), e.at.transaction))
  {
    hide TaskId, Removed;
    PresentUntilRemoved(run, i, j, name, minute);
    AcceptanceInReachableStates(run, j);
  }

  /** Fires once, at the minute. */
  function Once(minute: nat): Schedule {
    t => if t < minute * MINUTE then Some(minute * MINUTE) else None
  }

  /** A schedule for the minute with no options of its own. */
  function Bare(name: string, minute: nat): Definition {
    Definition(name, "* * * * *", "UTC", true, NOTE.jobType, Some(NOTE.payload),
      Options("", None, 0, 0, 0, 0, ""), Once(minute))
  }

  lemma OnceAnswers(minute: nat)
    ensures Answers(Once(minute), iset{minute * MINUTE}) && WholeMinutes(iset{minute * MINUTE})
  {}

  lemma BareIsPlain(name: string, minute: nat)
    ensures Plain(RunOptions(Bare(name, minute), minute))
    ensures Expiry(RunOptions(Bare(name, minute), minute), minute * MINUTE) == Horizon(minute)
    ensures RunOptions(Bare(name, minute), minute).taskId == TaskId(name, minute)
  {
    hide Stamp;
    assert "schedule:" <= TaskId(name, minute);
    assert DurationSeconds(2 * MINUTE) == 120;
  }

  lemma BareIsScheduled(name: string, minute: nat, now: int)
    requires minute * MINUTE <= now
    ensures Scheduled(DispatchAt(RunOptions(Bare(name, minute), minute), now), name, minute)
  {
    hide TaskId;
    OnceAnswers(minute);
    DueIffFires(Bare(name, minute), iset{minute * MINUTE}, minute);
    assert ScheduledBy(DispatchAt(RunOptions(Bare(name, minute), minute), now), Bare(name, minute), minute);
  }

  /** The horizon is tight, for every schedule name and minute: a job that ran at once has expired and
      been swept by then, and a scheduler two minutes late gets its dispatch accepted once more, no
      operator involved. */
  lemma HorizonIsTight(name: string, minute: nat) returns (run: Run, i: nat, j: nat)
    ensures run.Valid() && SchedulerOwnsItsIds(run) && i < j < |run.steps|
    ensures Accepted(run.states[i], run.steps[i]) && run.steps[i].id == TaskId(name, minute)
    ensures Accepted(run.states[j], run.steps[j]) && run.steps[j].id == TaskId(name, minute)
    ensures forall m :: 0 <= m < |run.steps| ==> !Deletes(run.states[m], run.steps[m], TaskId(name, minute))
    ensures run.states[j].clock == Horizon(minute)
  {
    hide TaskId, RunOptions, Plain, Expiry, Row, Done, Scheduled, Bare;
    var o, start := RunOptions(Bare(name, minute), minute), minute * MINUTE;
    BareIsPlain(name, minute);
    run := LiveAndExpire(o, start);
    ScanIt(run.states[5].t, o, start);
    run := Grow(run, Scan(0, Expiry(o, start), {o.taskId}));
    SweepIt(run.states[6].t, o);
    run := Grow(run, Sweep(0));
    DispatchInto(run.states[7].t, o, Horizon(minute));
    run := Grow(run, DispatchAt(o, Horizon(minute)));
    i, j := 1, 7;
    BareIsScheduled(name, minute, start);
    BareIsScheduled(name, minute, Horizon(minute));
    forall k: nat | k < |run.steps| ensures OwnedAt(run, k) {
      if run.steps[k].Dispatch? { assert k == 1 || k == 7; }
    }
  }
}
