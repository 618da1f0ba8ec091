/** What takeovers cost: they alone push a job past its retry budget, and the timing bound that keeps a
    worker's lease is the best there is. */
module QueueTakeovers {
  import opened Prelude
  import opened QueueTables
  import opened QueueSystem
  import opened QueueInvariant
  import opened QueueRetries
  import opened QueueLease
  import opened QueueScenarios

  // ------------------------------------------------------ exceeding the retry budget

  /** The row was reserved more often than its budget allows. */
  predicate OverBudget(job: Job) { job.maxRetry + 1 < job.attempts }

  /** The step takes over a lease whose attempt was already the last one the budget allows. */
  ghost predicate Overdraws(s: System, e: Step, id: JobId) {
    TakesOver(s, e, id) && s.t.jobs[id].maxRetry < s.t.jobs[id].attempts
  }

  /** Only such a takeover lifts a row over its budget, and it always does. */
  lemma ExceedsIffOverdraws(s: System, e: Step, id: JobId)
    requires Inv(s) && Enabled(s, e) && id in s.t.jobs && id in Apply(s, e).t.jobs && !OverBudget(s.t.jobs[id])
    ensures OverBudget(Apply(s, e).t.jobs[id]) <==> Overdraws(s, e, id)
  {
    assert RowShape(s.t.jobs[id]);
    if ActsOn(s, e, id) {
      hide RetryDelay;
    } else {
      UntouchedRow(s, e, id);
      hide Apply, Enabled;
    }
  }

  /** A row over its budget stays so until an operator retries it. */
  lemma OverBudgetUntilRevived(s: System, e: Step, id: JobId)
    requires Inv(s) && Enabled(s, e) && id in s.t.jobs && id in Apply(s, e).t.jobs && OverBudget(s.t.jobs[id])
    ensures OverBudget(Apply(s, e).t.jobs[id]) <==> !Revives(s, e, id)
  {
    assert RowShape(s.t.jobs[id]);
    if ActsOn(s, e, id) {
      hide RetryDelay;
    } else {
      UntouchedRow(s, e, id);
      hide Apply, Enabled;
    }
  }

  lemma NewRowIsWithinBudget(s: System, e: Step, id: JobId)
    requires Inv(s) && Enabled(s, e) && id in Apply(s, e).t.jobs && (id !in s.t.jobs || Revives(s, e, id))
    ensures !OverBudget(Apply(s, e).t.jobs[id])
  {
    hide InsertLocks, ClearExpired, DispatchLocks;
    if id in s.t.jobs { assert RowShape(s.t.jobs[id]); }
  }

  /** After step m and up to state k the job went on in one cycle: never removed, never revived. */
  ghost predicate SameCycle(run: Run, m: nat, k: nat, id: JobId)
    requires k <= |run.steps| && |run.states| == |run.steps| + 1
  {
    forall n :: m < n < k ==> id in run.states[n].t.jobs && !Revives(run.states[n], run.steps[n], id)
  }

  ghost predicate OverdrawnAt(run: Run, m: nat, k: nat, id: JobId)
    requires m < k <= |run.steps| && |run.states| == |run.steps| + 1
  {
    Overdraws(run.states[m], run.steps[m], id) && SameCycle(run, m, k, id)
  }

  ghost predicate Overdrawn(run: Run, k: nat, id: JobId)
    requires k <= |run.steps| && |run.states| == |run.steps| + 1
  {
    exists m :: 0 <= m < k && OverdrawnAt(run, m, k, id)
  }

  lemma NextOverdrawn(run: Run, k: nat, id: JobId)
    requires k < |run.steps| && |run.states| == |run.steps| + 1
    ensures Overdrawn(run, k + 1, id)
            <==> Overdraws(run.states[k], run.steps[k], id)
                 || (id in run.states[k].t.jobs && !Revives(run.states[k], run.steps[k], id) && Overdrawn(run, k, id))
  {
    hide Overdraws, Revives;
    var next := k + 1;
    if Overdrawn(run, next, id) {
      var m :| 0 <= m < next && OverdrawnAt(run, m, next, id);
      if m < k { assert OverdrawnAt(run, m, k, id); }
    }
    if Overdraws(run.states[k], run.steps[k], id) { assert OverdrawnAt(run, k, next, id); }
    if Overdrawn(run, k, id) && id in run.states[k].t.jobs && !Revives(run.states[k], run.steps[k], id) {
      var m :| 0 <= m < k && OverdrawnAt(run, m, k, id);
      assert OverdrawnAt(run, m, next, id);
    }
  }

  /** In every reachable state a row has more than maxRetry + 1 attempts if and only if its current cycle
      saw an expired lease taken over when the budget was already used up. */
  lemma {:induction false} OverBudgetIffOverdrawn(run: Run, k: nat, id: JobId)
    requires run.Valid() && k < |run.states| && id in run.states[k].t.jobs
    ensures OverBudget(run.states[k].t.jobs[id]) <==> Overdrawn(run, k, id)
  {
    hide Apply, Enabled, Inv, OverBudget, OverdrawnAt, Overdraws, Revives;
    if k > 0 {
      var s, e := run.states[k - 1], run.steps[k - 1];
      assert run.Follows(k - 1);
      ReachableInv(run, k - 1);
      NextOverdrawn(run, k - 1, id);
      OverdrawingKeepsCycle(s, e, id);
      if id !in s.t.jobs || Revives(s, e, id) {
        NewRowIsWithinBudget(s, e, id);
      } else {
        OverBudgetIffOverdrawn(run, k - 1, id);
        if OverBudget(s.t.jobs[id]) { OverBudgetUntilRevived(s, e, id); } else { ExceedsIffOverdraws(s, e, id); }
      }
    }
  }

  lemma OverdrawingKeepsCycle(s: System, e: Step, id: JobId)
    ensures Overdraws(s, e, id) ==> id in s.t.jobs && !Revives(s, e, id)
  {}

  function Name(n: nat): Token { seq(n, _ => 't') }

  /** The row while its n-th takeover's lease runs, a second each. */
  function TakenOverRow(o: Options, n: nat): Job {
    Row(o, 0).(status := Active, attempts := n + 1, leaseToken := Some(Name(n)), leasedUntil := Some((n + 1) * SECOND))
  }

  /** A worker that never comes back, n more that take its job over and do not come back either: whatever
      its budget, the job has n + 1 attempts. */
  lemma {:induction false} TakeoversAddUp(o: Options, n: nat) returns (run: Run)
    requires Plain(o)
    ensures run.Valid() && run.states[|run.steps|].t == TablesWith(o, TakenOverRow(o, n), map[])
    ensures run.states[|run.steps|].clock == n * SECOND
    ensures forall token :: token in run.states[|run.steps|].held ==> |token| <= n
  {
    hide RetryDelay, DurationSeconds, DispatchLocks, ClearExpired, InsertLocks;
    if n == 0 {
      run := Run([INITIAL], []);
      DispatchInto(INITIAL.t, o, 0);
      run := Grow(run, DispatchAt(o, 0));
      LeaseIt(run.states[1].t, o, Row(o, 0), map[], 0, Name(0), SECOND);
      run := Grow(run, Reserve("default", 0, SECOND, Some(o.taskId), Name(0)));
    } else {
      run := TakeoversAddUp(o, n - 1);
      run := Grow(run, Tick(n * SECOND));
      var t := run.states[|run.steps|].t;
      LeaseIt(t, o, TakenOverRow(o, n - 1), map[], n * SECOND, Name(n), SECOND);
      run := Grow(run, Reserve("default", n * SECOND, SECOND, Some(o.taskId), Name(n)));
    }
  }

  /** So no budget is safe from takeovers: for every choice of maxRetry there is a run that exceeds it. */
  lemma AnyBudgetCanBeExceeded(o: Options) returns (run: Run)
    requires Plain(o)
    ensures run.Valid() && o.taskId in run.states[|run.steps|].t.jobs
    ensures var job := run.states[|run.steps|].t.jobs[o.taskId];
            OverBudget(job) && job.maxRetry == (if o.maxRetry <= 0 then DEFAULT_MAX_RETRY else o.maxRetry)
  {
    run := TakeoversAddUp(o, Row(o, 0).maxRetry + 1);
  }

  // -------------------------------------------------------- keeping a lease just barely

  lemma NoBeatIsDue(run: Run, i: nat, k: nat, token: Token, start: int, interval: int, lateness: int)
    requires k <= |run.steps| && |run.states| == |run.steps| + 1 && 0 <= interval
    requires run.states[k].clock <= start + interval + lateness
    ensures Timely(run, i, k, token, start, interval, lateness)
  {
    forall n: nat | 1 <= n ensures run.states[k].clock <= Due(start, interval, n) + lateness {
      assert interval <= n * interval;
    }
  }

  function FirstTakeover(o: Options, reservation: int): seq<Step> {
    [DispatchAt(o, 0), Reserve("default", 0, reservation, Some(o.taskId), "t"), Tick(reservation),
     Reserve("default", reservation, reservation, Some(o.taskId), "u")]
  }

  lemma TakenOverAtDeadline(o: Options, reservation: int) returns (run: Run)
    requires Plain(o) && SECOND <= reservation
    ensures run.Valid() && run.steps == FirstTakeover(o, reservation) && |run.steps| == 4
    ensures run.states[2].clock == 0 && run.states[3].clock == reservation
    ensures TakesOver(run.states[3], run.steps[3], o.taskId)
  {
    hide RetryDelay, DurationSeconds, DispatchLocks, ClearExpired, InsertLocks;
    run := Run([INITIAL], []);
    DispatchInto(INITIAL.t, o, 0);
    run := Grow(run, DispatchAt(o, 0));
    LeaseIt(run.states[1].t, o, Row(o, 0), map[], 0, "t", reservation);
    run := Grow(run, Reserve("default", 0, reservation, Some(o.taskId), "t"));
    run := Grow(run, Tick(reservation));
    LeaseIt(run.states[3].t, o, Leased(Row(o, 0), "t", 0, reservation), map[], reservation, "u", reservation);
    run := Grow(run, Reserve("default", reservation, reservation, Some(o.taskId), "u"));
  }

  /** The bound that keeps a lease is tight: whenever start-up delay, interval and lateness together reach
      the reservation - always, for a reservation of one second - there is a run in which all beats keep
      time and the job is taken over nevertheless. */
  lemma LeaseBoundIsTight(o: Options, reservation: int, delay: int, lateness: int) returns (run: Run)
    requires Plain(o) && SECOND <= reservation && 0 <= delay && 0 <= lateness
    requires reservation <= delay + HeartbeatInterval(reservation) + lateness
    ensures run.Valid() && |run.steps| == 4 && Reserved(run, 1, o.taskId, "t")
    ensures run.steps[1].now == 0 && run.steps[1].reservation == reservation
    ensures forall m :: 1 < m <= 3 ==> Timely(run, 1, m, "t", delay, HeartbeatInterval(reservation), lateness)
    ensures forall m :: 1 < m < 3 ==> !Ends(run.states[m], run.steps[m], o.taskId, "t")
    ensures TakesOver(run.states[3], run.steps[3], o.taskId)
  {
    run := TakenOverAtDeadline(o, reservation);
    hide TakesOver;
    NoBeatIsDue(run, 1, 2, "t", delay, HeartbeatInterval(reservation), lateness);
    NoBeatIsDue(run, 1, 3, "t", delay, HeartbeatInterval(reservation), lateness);
    assert run.steps[2] == Tick(reservation);
  }
}
