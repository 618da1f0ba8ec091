/** The runner meets the protocol: a tick of any scheduler process is a stretch of a run whose dispatches
    are scheduled ones. */
module SchedulerTick {
  import opened Prelude
  import opened Calendar
  import opened QueueTables
  import opened QueueLocks
  import opened QueueOrigins
  import opened QueueSystem
  import opened Scheduler
  import opened SchedulerOnce

  /** The dispatch step of one call of a tick. */
  function CallStep(d: Definition, minute: nat, call: Call): Step
    requires d.payload.Some?
  {
    Dispatch(TaskId(d.name, minute), Message(d.jobType, d.payload.value), RunOptions(d, minute), call.at)
  }

  lemma CallIsScheduled(d: Definition, minute: nat, call: Call, from: int, upto: int)
    requires d.payload.Some? && FiresAt(d, minute)
    requires call.at.Ordered(from, upto) && minute * MINUTE <= from
    ensures Scheduled(CallStep(d, minute, call), d.name, minute)
  {
    assert ScheduledBy(CallStep(d, minute, call), d, minute);
  }

  lemma {:induction false} DueFires(definitions: seq<Definition>, minute: nat, k: nat)
    requires k < |DueAt(definitions, minute)|
    ensures FiresAt(DueAt(definitions, minute)[k], minute)
  {
    hide FiresAt;
    var front := definitions[..|definitions| - 1];
    if k < |DueAt(front, minute)| { DueFires(front, minute, k); }
  }

  ghost predicate AllFire(due: seq<Definition>, minute: nat) {
    forall k :: 0 <= k < |due| ==> FiresAt(due[k], minute)
  }

  ghost predicate ScheduledFor(e: Step, minute: nat) { exists name :: Scheduled(e, name, minute) }

  /** The longer run continues the other by scheduled dispatches for the minute only. */
  ghost predicate ContinuesWithTick(run: Run, longer: Run, minute: nat) {
    && |run.steps| <= |longer.steps|
    && longer.steps[..|run.steps|] == run.steps
    && forall k :: |run.steps| <= k < |longer.steps| ==> ScheduledFor(longer.steps[k], minute)
  }

  lemma CallContinues(run: Run, middle: Run, d: Definition, minute: nat, call: Call, from: int)
    returns (longer: Run)
    requires middle.Valid() && ContinuesWithTick(run, middle, minute)
    requires FiresAt(d, minute) && 0 <= minute * MINUTE <= from
    requires call.at.Ordered(from, middle.states[|middle.steps|].clock)
    requires middle.states[|middle.steps|].t == call.before
    ensures longer.Valid() && ContinuesWithTick(run, longer, minute)
    ensures longer.states[|longer.steps|].t == AfterCall(d, minute, call)
    ensures longer.states[|longer.steps|].clock == middle.states[|middle.steps|].clock
  {
    hide TaskId, DispatchTx, FiresAt, RunOptions, Scheduled;
    if d.payload.None? {
      longer := middle;
    } else {
      var s, e := middle.states[|middle.steps|], CallStep(d, minute, call);
      TaskIdOfOptions(d, minute);
      CallIsScheduled(d, minute, call, from, s.clock);
      longer := Extend(middle, e);
      StepContinues(run, middle, longer, d.name, minute);
    }
  }

  lemma StepContinues(run: Run, middle: Run, longer: Run, name: string, minute: nat)
    requires ContinuesWithTick(run, middle, minute)
    requires |longer.steps| == |middle.steps| + 1 && longer.steps[..|middle.steps|] == middle.steps
    requires Scheduled(longer.steps[|middle.steps|], name, minute)
    ensures ContinuesWithTick(run, longer, minute)
  {
    hide ScheduledBy;
    assert longer.steps[..|run.steps|] == middle.steps[..|run.steps|];
    forall k | |run.steps| <= k < |longer.steps| ensures ScheduledFor(longer.steps[k], minute) {
      if k < |middle.steps| { assert longer.steps[k] == middle.steps[k]; }
    }
  }

  lemma TaskIdOfOptions(d: Definition, minute: nat)
    ensures RunOptions(d, minute).taskId == TaskId(d.name, minute)
  {}

  lemma {:induction false} ChainContinues(run: Run, due: seq<Definition>, minute: nat, calls: seq<Call>, last: Tables,
                                          from: int)
    returns (longer: Run)
    requires run.Valid() && AllFire(due, minute) && 0 <= minute * MINUTE <= from
    requires Chain(due, minute, calls, run.states[|run.steps|].t, last)
    requires Within(calls, from, run.states[|run.steps|].clock)
    ensures longer.Valid() && ContinuesWithTick(run, longer, minute)
    ensures longer.states[|longer.steps|].t == last
    ensures longer.states[|longer.steps|].clock == run.states[|run.steps|].clock
    decreases |due|
  {
    hide AfterCall, FiresAt, Scheduled;
    if due == [] {
      longer := run;
    } else {
      var n := |due| - 1;
      var middle := ChainContinues(run, due[..n], minute, calls[..n], calls[n].before, from);
      longer := CallContinues(run, middle, due[n], minute, calls[n], from);
    }
  }

  lemma TickKeepsOwnership(run: Run, longer: Run, minute: nat)
    requires SchedulerOwnsItsIds(run) && ContinuesWithTick(run, longer, minute)
    ensures SchedulerOwnsItsIds(longer)
  {
    hide Scheduled;
    forall k: nat | k < |longer.steps| ensures OwnedAt(longer, k) {
      if k < |run.steps| {
        assert longer.steps[k] == run.steps[k];
        assert OwnedAt(run, k);
      } else {
        assert ScheduledFor(longer.steps[k], minute);
      }
    }
  }

  /** What Runner.Run promises of a tick makes the tick a continuation of the run it found: the same steps
      so far, then only scheduled dispatches for its minute, ending in the tables the tick left.  So the
      guarantees about runs speak of every tick. */
  lemma TickContinuesRun(run: Run, definitions: seq<Definition>, minute: nat, calls: seq<Call>, last: Tables, from: int)
    returns (longer: Run)
    requires run.Valid() && SchedulerOwnsItsIds(run) && 0 <= minute * MINUTE <= from
    requires Chain(DueAt(definitions, minute), minute, calls, run.states[|run.steps|].t, last)
    requires Within(calls, from, run.states[|run.steps|].clock)
    ensures longer.Valid() && SchedulerOwnsItsIds(longer) && ContinuesWithTick(run, longer, minute)
    ensures longer.states[|longer.steps|].t == last
  {
    forall k | 0 <= k < |DueAt(definitions, minute)| ensures FiresAt(DueAt(definitions, minute)[k], minute) {
      DueFires(definitions, minute, k);
    }
    hide FiresAt, Chain, Within, Scheduled, DueAt;
    longer := ChainContinues(run, DueAt(definitions, minute), minute, calls, last, from);
    TickKeepsOwnership(run, longer, minute);
  }

  /** A scheduled job's row honours its definition: its queue, type, payload and budget, and its retention,
      but for at least two minutes. */
  lemma ScheduledRowHonoursDefinition(run: Run, m: nat, k: nat, d: Definition, minute: nat)
    requires run.Valid() && m < k < |run.states| && Origin(run, m, k, TaskId(d.name, minute))
    requires ScheduledBy(run.steps[m], d, minute)
    ensures TaskId(d.name, minute) in run.states[k].t.jobs
    ensures var job := run.states[k].t.jobs[TaskId(d.name, minute)];
            && job.queue == (if d.options.queue == "" then "default" else d.options.queue)
            && job.jobType == d.jobType && d.payload == Some(job.payload)
            && job.maxRetry == (if 0 < d.options.maxRetry then d.options.maxRetry else 25)
            && InSeconds(job.timeoutSecs, d.options.timeout)
            && (job.status == Pending && d.options.processAt.Some? ==> Some(job.availableAt) == d.options.processAt)
            && (if d.options.retention < 2 * MINUTE then job.retentionSecs == 120
                else InSeconds(job.retentionSecs, d.options.retention))
  {
    hide TaskId;
    var n := RowCarriesItsDispatch(run, k, TaskId(d.name, minute));
    OriginIsUnique(run, m, n, k, TaskId(d.name, minute));
  }

  /** And its uniqueness: an accepted dispatch of a definition with UniqueFor locks queue, type and payload for
      that long, one of a definition without touches no uniqueness lock. */
  lemma ScheduledDispatchHonoursUniqueness(s: System, e: Step, d: Definition, minute: nat, key: LockKey)
    requires Enabled(s, e) && ScheduledBy(e, d, minute) && Accepted(s, e)
    ensures 0 < d.options.uniqueFor && key == UniqueKey(e.message, d.options) ==>
              key in Apply(s, e).t.locks
              && Apply(s, e).t.locks[key] == Lock(e.id, Some(e.at.locks + d.options.uniqueFor))
    ensures key.prefix == "unique" && (d.options.uniqueFor <= 0 || key != UniqueKey(e.message, d.options)) ==>
              (key in Apply(s, e).t.locks <==> key in s.t.locks)
              && (key in s.t.locks ==> Apply(s, e).t.locks[key] == s.t.locks[key])
  {
    hide TaskId, InsertLocks, ClearExpired, DispatchLocks;
    LocksAfterDispatch(s.t, e.id, e.message, e.options, e.at, key);
  }
}
