/** The queue as a concurrent protocol.  Any number of dispatchers, workers, cleaners and
    operators share the tables; every transaction or single statement is one step.  A step
    carries the clock readings its process took beforehand, so a decision may rest on a
    reading, or on a copy of a row, that is stale by the time it commits. */
module QueueSystem {
  import opened Prelude
  import opened QueueTables

  /** What a worker keeps of a reservation: the row as it stood at the commit, when that was,
      and the last clock reading its heartbeat used. */
  datatype Copy = Copy(id: JobId, row: Job, since: int, beat: int, reservation: int)

  /** `held` is never emptied: a worker that was overtaken may still try to finish, so every
      token ever issued keeps its copy.  `scans` are the id lists of cleanups between their
      scan and their delete transaction. */
  datatype System = System(t: Tables, clock: int, held: map<Token, Copy>, scans: map<nat, set<JobId>>)

  datatype Step =
    | Tick(to: int)
    | Dispatch(id: JobId, message: Message, options: Options, at: Readings)
    | Reserve(queue: string, now: int, reservation: int, choice: Option<JobId>, token: Token)
    | Heartbeat(token: Token, now: int)
    | Complete(token: Token, now: int)
    | Fail(token: Token, now: int, reason: string)
    | CleanLocks(now: int)
    | Scan(scan: nat, now: int, ids: set<JobId>)
    | Sweep(scan: nat)
    | Abandon(scan: nat)
    | OperatorRetry(queue: string, target: string, now: int)
    | OperatorDelete(queue: string, target: string)

  const INITIAL: System := System(Tables(map[], map[], map[]), 0, map[], map[])

  /** When a step may happen.  Readings never exceed the clock; a worker finishes with a reading
      taken after its reservation committed; a lease token is fresh. */
  ghost predicate Enabled(s: System, e: Step) {
    match e
    case Tick(to) => s.clock <= to
    case Dispatch(id, message, options, at) =>
      at.Ordered(0, s.clock) && (options.taskId != "" ==> id == options.taskId)
    case Reserve(queue, now, reservation, choice, token) =>
      && 0 <= now <= s.clock
      && SECOND <= reservation
      && token !in s.held
      && (choice.Some? ==> Earliest(s.t.jobs, queue, now, choice.value))
      && (choice.None? ==> forall id :: !Eligible(s.t.jobs, queue, now, id))
    case Heartbeat(token, now) => token in s.held && s.held[token].beat <= now <= s.clock
    case Complete(token, now) => token in s.held && s.held[token].since <= now <= s.clock
    case Fail(token, now, reason) => token in s.held && s.held[token].since <= now <= s.clock
    case CleanLocks(now) => 0 <= now <= s.clock
    case Scan(scan, now, ids) =>
      0 <= now <= s.clock && scan !in s.scans && ids != {} && ScanResult(s.t.jobs, now, ids)
    case Sweep(scan) => scan in s.scans
    case Abandon(scan) => scan in s.scans
    case OperatorRetry(queue, target, now) => 0 <= now <= s.clock
    case OperatorDelete(queue, target) => true
  }

  function Taken(s: System, id: JobId, now: int, reservation: int, token: Token): System
    requires id in s.t.jobs
  {
    var t := ReserveTx(s.t, id, token, now, reservation);
    s.(t := t, held := s.held[token := Copy(id, t.jobs[id], s.clock, s.clock, reservation)])
  }

  /** The effect of an enabled step; a step that names nothing known changes nothing. */
  function Apply(s: System, e: Step): System {
    match e
    case Tick(to) => s.(clock := to)
    case Dispatch(id, message, options, at) => s.(t := DispatchTx(s.t, id, message, options, at))
    case Reserve(queue, now, reservation, choice, token) =>
      if choice.None? || choice.value !in s.t.jobs then s
      else Taken(s, choice.value, now, reservation, token)
    case Heartbeat(token, now) =>
      if token !in s.held then s
      else
        var copy := s.held[token];
        s.(t := HeartbeatTx(s.t, copy.id, token, now, copy.reservation),
           held := s.held[token := copy.(beat := now)])
    case Complete(token, now) =>
      if token !in s.held then s
      else s.(t := CompleteTx(s.t, s.held[token].id, s.held[token].row, token, now))
    case Fail(token, now, reason) =>
      if token !in s.held then s
      else s.(t := FailTx(s.t, s.held[token].id, s.held[token].row, token, now, reason))
    case CleanLocks(now) => s.(t := CleanLocksTx(s.t, now))
    case Scan(scan, now, ids) => s.(scans := s.scans[scan := ids])
    case Sweep(scan) =>
      if scan !in s.scans then s
      else s.(t := SweepTx(s.t, s.scans[scan]), scans := s.scans - {scan})
    case Abandon(scan) => s.(scans := s.scans - {scan})
    case OperatorRetry(queue, target, now) => s.(t := OperatorRetryTx(s.t, queue, target, now))
    case OperatorDelete(queue, target) => s.(t := OperatorDeleteTx(s.t, queue, target))
  }

  /** A finite run: the steps taken and the states they lead through. */
  datatype Run = Run(states: seq<System>, steps: seq<Step>)
  {
    ghost predicate Follows(k: nat)
      requires |states| == |steps| + 1 && k < |steps|
    {
      Enabled(states[k], steps[k]) && states[k + 1] == Apply(states[k], steps[k])
    }

    /** The run starts with empty tables and every step was enabled when it was taken. */
    ghost predicate Valid() {
      && |states| == |steps| + 1
      && states[0] == INITIAL
      && forall k: nat :: k < |steps| ==> Follows(k)
    }
  }

  /** Any valid run can be continued by any step its last state enables. */
  lemma Extend(run: Run, e: Step) returns (longer: Run)
    requires run.Valid() && Enabled(run.states[|run.steps|], e)
    ensures longer == Run(run.states + [Apply(run.states[|run.steps|], e)], run.steps + [e])
    ensures longer.Valid()
  {
    longer := Run(run.states + [Apply(run.states[|run.steps|], e)], run.steps + [e]);
    forall k: nat | k < |longer.steps| ensures longer.Follows(k) {
      if k < |run.steps| { assert run.Follows(k); }
    }
  }
}
