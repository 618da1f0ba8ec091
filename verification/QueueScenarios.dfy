/** Concrete runs for the witnesses: one job under a task ID, step by step. */
module QueueScenarios {
  import opened Prelude
  import opened QueueTables
  import opened QueueSystem
  import opened QueueLocks

  const NOTE: Message := Message("note", "{}")

  /** A job under a task ID for the default queue, available at once, without uniqueness, retained for a while. */
  predicate Plain(o: Options) {
    o.taskId != "" && o.queue == "" && o.processAt.None? && o.uniqueFor <= 0 && 1 <= DurationSeconds(o.retention)
  }

  function ReadAt(now: int): Readings { Readings(now, now, now, now) }

  function DispatchAt(o: Options, now: int): Step { Dispatch(o.taskId, NOTE, o, ReadAt(now)) }

  function Row(o: Options, now: int): Job { NewRecord(NOTE, o, ReadAt(now)) }

  function FirstLease(o: Options, now: int): Job { Leased(Row(o, now), "t", now, SECOND) }

  function Done(o: Options, now: int): Job { Retained(FirstLease(o, now), now, DurationSeconds(o.retention)) }

  function Expiry(o: Options, now: int): int { now + DurationSeconds(o.retention) * SECOND }

  function TablesWith(o: Options, job: Job, processed: map<string, nat>): Tables {
    Tables(map[o.taskId := job], map[TaskKey(o.taskId) := Lock(o.taskId, None)], processed)
  }

  lemma DispatchInto(t: Tables, o: Options, now: int)
    requires Plain(o) && t.jobs == map[] && t.locks == map[]
    ensures Accepts(t, o.taskId, NOTE, o, ReadAt(now))
    ensures DispatchTx(t, o.taskId, NOTE, o, ReadAt(now)) == TablesWith(o, Row(o, now), t.stats)
  {
    AcceptsMeaning(t, o.taskId, NOTE, o, ReadAt(now));
    ClearedLocks(t.locks, o.taskId, NOTE, o, now, now);
    InsertedLocks(t.locks, o.taskId, NOTE, o, now);
  }

  lemma LeaseIt(t: Tables, o: Options, job: Job, processed: map<string, nat>, now: int, token: Token, reservation: int)
    requires t == TablesWith(o, job, processed) && job.queue == "default" && job.EligibleAt(now)
    ensures Earliest(t.jobs, "default", now, o.taskId)
    ensures ReserveTx(t, o.taskId, token, now, reservation)
            == TablesWith(o, Leased(job, token, now, reservation), processed)
  {}

  lemma CompleteIt(t: Tables, o: Options, now: int)
    requires Plain(o) && t == TablesWith(o, FirstLease(o, now), map[])
    ensures CompleteTx(t, o.taskId, FirstLease(o, now), "t", now) == TablesWith(o, Done(o, now), map["default" := 1])
  {}

  lemma ScanIt(t: Tables, o: Options, now: int)
    requires Plain(o) && t == TablesWith(o, Done(o, now), map["default" := 1])
    ensures ScanResult(t.jobs, Expiry(o, now), {o.taskId})
  {
    assert ExpiredIds(t.jobs, Expiry(o, now)) == {o.taskId};
  }

  lemma SweepIt(t: Tables, o: Options)
    requires exists job, processed :: t == TablesWith(o, job, processed)
    ensures SweepTx(t, {o.taskId}) == Tables(map[], map[], t.stats)
  {}

  lemma Grow(run: Run, e: Step) returns (longer: Run)
    requires run.Valid() && Enabled(run.states[|run.steps|], e)
    ensures longer.Valid() && longer.steps == run.steps + [e]
    ensures longer.states == run.states + [Apply(run.states[|run.steps|], e)]
  {
    longer := Extend(run, e);
  }

  function Life(o: Options, start: int): seq<Step> {
    [Tick(start), DispatchAt(o, start), Reserve("default", start, SECOND, Some(o.taskId), "t"), Complete("t", start),
     Tick(Expiry(o, start))]
  }

  /** Dispatched, reserved and completed at one instant, and expired. */
  lemma LiveAndExpire(o: Options, start: nat) returns (run: Run)
    requires Plain(o)
    ensures run.Valid() && run.steps == Life(o, start) && |run.steps| == 5
    ensures Accepted(run.states[1], run.steps[1])
    ensures run.states[5].t == TablesWith(o, Done(o, start), map["default" := 1])
    ensures run.states[5].clock == Expiry(o, start) && run.states[5].scans == map[]
  {
    hide RetryDelay, DurationSeconds, DispatchLocks, ClearExpired, InsertLocks;
    run := Run([INITIAL], []);
    run := Grow(run, Tick(start));
    DispatchInto(INITIAL.t, o, start);
    run := Grow(run, DispatchAt(o, start));
    LeaseIt(run.states[2].t, o, Row(o, start), map[], start, "t", SECOND);
    run := Grow(run, Reserve("default", start, SECOND, Some(o.taskId), "t"));
    CompleteIt(run.states[3].t, o, start);
    run := Grow(run, Complete("t", start));
    run := Grow(run, Tick(Expiry(o, start)));
  }
}
