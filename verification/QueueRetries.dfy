/** Retry accounting, backoff and termination.  A cycle of a job runs from its dispatch, or from
    an operator's retry, to the next operator's retry or its removal. */
module QueueRetries {
  import opened Prelude
  import opened QueueTables
  import opened QueueSystem
  import opened QueueInvariant
  import opened QueueTally

  // ------------------------------------------------------------------ the delay

  lemma {:induction false} Pow2Grows(m: nat, n: nat)
    requires m <= n
    ensures 1 <= Pow2(m) <= Pow2(n)
    decreases n
  {
    if m < n { Pow2Grows(m, n - 1); } else if 0 < n { Pow2Grows(n - 1, n - 1); }
  }

  lemma Pow2Twelve()
    ensures Pow2(12) == 4096
  {
    assert Pow2(4) == 16;
    assert Pow2(8) == 256;
  }

  /** The exponent cap of 12 never shows: the delay is min(2^(attempt-1), 3600) seconds, a second below
      the first attempt. */
  lemma RetryDelayIsCappedPower(attempt: int)
    ensures RetryDelay(attempt) == Min(SECOND * Pow2(Max(attempt - 1, 0)), 3600 * SECOND)
    ensures SECOND <= RetryDelay(attempt) <= 3600 * SECOND
  {
    Pow2Twelve();
    Pow2Grows(0, Max(attempt - 1, 0));
    if 12 < attempt - 1 { Pow2Grows(12, attempt - 1); }
  }

  lemma RetryDelayMonotone(a: int, b: int)
    requires a <= b
    ensures RetryDelay(a) <= RetryDelay(b)
  {
    RetryDelayIsCappedPower(a);
    RetryDelayIsCappedPower(b);
    Pow2Grows(Max(a - 1, 0), Max(b - 1, 0));
  }

  // ----------------------------------------------------------------- the cycles

  /** A recorded failure: the reading and the message. */
  datatype Failure = Failure(at: int, message: string)

  /** What happened in a job's current cycle, its latest failure, and the clock at which the cycle began. */
  datatype Cycle = Cycle(failures: nat, takeovers: nat, last: Option<Failure>, begun: int)

  ghost predicate RecordsFailure(s: System, e: Step, id: JobId) {
    e.Fail? && e.token in s.held && s.held[e.token].id == id && Fenced(s.t, id, e.token)
  }

  ghost predicate TakesOver(s: System, e: Step, id: JobId) {
    e.Reserve? && e.choice == Some(id) && id in s.t.jobs && s.t.jobs[id].status == Active
  }

  ghost predicate Revives(s: System, e: Step, id: JobId) {
    e.OperatorRetry? && Selected(s.t.jobs, e.queue, e.target, id)
  }

  ghost function CycleAfter(s: System, e: Step, cycles: map<JobId, Cycle>, id: JobId): Cycle {
    if id !in cycles || Revives(s, e, id) then Cycle(0, 0, None, s.clock)
    else if RecordsFailure(s, e, id) then
      cycles[id].(failures := cycles[id].failures + 1, last := Some(Failure(e.now, e.reason)))
    else if TakesOver(s, e, id) then cycles[id].(takeovers := cycles[id].takeovers + 1)
    else cycles[id]
  }

  ghost function NextCycles(s: System, e: Step, cycles: map<JobId, Cycle>): map<JobId, Cycle> {
    map id | id in Apply(s, e).t.jobs :: CycleAfter(s, e, cycles, id)
  }

  ghost function Cycles(run: Run, k: nat): map<JobId, Cycle>
    requires k <= |run.steps| && |run.states| == |run.steps| + 1
  {
    if k == 0 then map[] else NextCycles(run.states[k - 1], run.steps[k - 1], Cycles(run, k - 1))
  }

  /** The least time a cycle with n recorded failures has spent backing off. */
  function Backoff(n: nat): int {
    if n == 0 then 0 else Backoff(n - 1) + RetryDelay(n)
  }

  /** Attempts are the recorded failures, the takeovers and the current reservation. */
  ghost predicate Accounted(job: Job, cycle: Cycle) {
    && job.attempts == cycle.failures + cycle.takeovers
                       + (if job.status == Active || job.status == Completed then 1 else 0)
    && job.attempts <= job.maxRetry + 1 + cycle.takeovers
    && (job.status == Failed ==> 0 < cycle.failures)
    && job.lastFailedAt == (if cycle.last.Some? then Some(cycle.last.value.at) else None)
    && job.lastError == (if cycle.last.Some? then Some(cycle.last.value.message) else None)
    && (cycle.last.Some? <==> 0 < cycle.failures)
  }

  /** A retrying row becomes available only after its last delay; each attempt began only after all
      the delays before it. */
  ghost predicate BackedOff(s: System, id: JobId, cycle: Cycle)
    requires id in s.t.jobs
  {
    var job := s.t.jobs[id];
    && cycle.begun <= s.clock
    && (job.status == Retry && 0 < cycle.failures ==>
          && job.lastFailedAt.Some?
          && job.lastFailedAt.value + RetryDelay(cycle.failures) <= job.availableAt
          && cycle.begun + Backoff(cycle.failures) <= job.availableAt)
    && (job.status == Active ==>
          job.leaseToken.Some? && job.leaseToken.value in s.held
          && cycle.begun + Backoff(cycle.failures) <= s.held[job.leaseToken.value].since)
    && (job.status == Failed ==>
          0 < cycle.failures && job.lastFailedAt.Some?
          && cycle.begun + Backoff(cycle.failures - 1) <= job.lastFailedAt.value)
  }

  ghost predicate CyclesSound(s: System, cycles: map<JobId, Cycle>) {
    && cycles.Keys == s.t.jobs.Keys
    && (forall id :: id in s.t.jobs ==> Accounted(s.t.jobs[id], cycles[id]))
    && (forall id :: id in s.t.jobs ==> BackedOff(s, id, cycles[id]))
  }

  lemma BackoffSteps(n: nat, attempts: int)
    requires n < attempts
    ensures Backoff(n + 1) <= Backoff(n) + RetryDelay(attempts)
    ensures RetryDelay(n + 1) <= RetryDelay(attempts)
  {
    RetryDelayMonotone(n + 1, attempts);
  }

  lemma FailureKeepsCycle(s: System, e: Step, cycle: Cycle)
    requires Inv(s) && Enabled(s, e) && e.Fail? && Fenced(s.t, s.held[e.token].id, e.token)
    requires var id := s.held[e.token].id; Accounted(s.t.jobs[id], cycle) && BackedOff(s, id, cycle)
    ensures var id := s.held[e.token].id;
            var cycle' := cycle.(failures := cycle.failures + 1, last := Some(Failure(e.now, e.reason)));
            && id in Apply(s, e).t.jobs
            && Accounted(Apply(s, e).t.jobs[id], cycle') && BackedOff(Apply(s, e), id, cycle')
  {
    hide RetryDelay, Backoff;
    var id := s.held[e.token].id;
    assert Coherent(s, id) && RowShape(s.t.jobs[id]);
    BackoffSteps(cycle.failures, s.t.jobs[id].attempts);
  }

  lemma ReservationKeepsCycle(s: System, e: Step, cycle: Cycle)
    requires Inv(s) && Enabled(s, e) && e.Reserve? && e.choice.Some?
    requires var id := e.choice.value; Accounted(s.t.jobs[id], cycle) && BackedOff(s, id, cycle)
    ensures var id := e.choice.value;
            var cycle' := if s.t.jobs[id].status == Active then cycle.(takeovers := cycle.takeovers + 1) else cycle;
            && id in Apply(s, e).t.jobs
            && Accounted(Apply(s, e).t.jobs[id], cycle') && BackedOff(Apply(s, e), id, cycle')
  {
    hide RetryDelay;
    var id := e.choice.value;
    assert RowShape(s.t.jobs[id]);
    if s.t.jobs[id].status == Active { assert CopyShape(s, s.t.jobs[id].leaseToken.value); }
  }

  lemma OtherStepKeepsCycle(s: System, e: Step, cycle: Cycle, id: JobId)
    requires Inv(s) && Enabled(s, e) && id in s.t.jobs && id in Apply(s, e).t.jobs
    requires !RecordsFailure(s, e, id) && !Revives(s, e, id) && !(e.Reserve? && e.choice == Some(id))
    requires Accounted(s.t.jobs[id], cycle) && BackedOff(s, id, cycle)
    ensures Accounted(Apply(s, e).t.jobs[id], cycle) && BackedOff(Apply(s, e), id, cycle)
  {
    assert Coherent(s, id) && RowShape(s.t.jobs[id]);
    StepRemembers(s, e);
    if ActsOn(s, e, id) {
      LeaseStepKeepsCycle(s, e, cycle, id);
    } else {
      UntouchedRow(s, e, id);
      hide Apply, Enabled, RetryDelay, Backoff;
    }
  }

  lemma LeaseStepKeepsCycle(s: System, e: Step, cycle: Cycle, id: JobId)
    requires Inv(s) && Enabled(s, e) && id in s.t.jobs && id in Apply(s, e).t.jobs
    requires (e.Heartbeat? || e.Complete?) && ActsOn(s, e, id)
    requires Accounted(s.t.jobs[id], cycle) && BackedOff(s, id, cycle)
    ensures Accounted(Apply(s, e).t.jobs[id], cycle) && BackedOff(Apply(s, e), id, cycle)
  {
    hide RetryDelay, Backoff, DropOwnedLocks;
    assert Coherent(s, id);
  }

  lemma FreshCycle(s: System, e: Step, id: JobId)
    requires Inv(s) && Enabled(s, e) && id in Apply(s, e).t.jobs
    requires id !in s.t.jobs || Revives(s, e, id)
    ensures Accounted(Apply(s, e).t.jobs[id], Cycle(0, 0, None, s.clock))
    ensures BackedOff(Apply(s, e), id, Cycle(0, 0, None, s.clock))
  {
    hide RetryDelay, InsertLocks, ClearExpired, DispatchLocks;
    if id in s.t.jobs { assert RowShape(s.t.jobs[id]); }
  }

  lemma StepKeepsCycles(s: System, e: Step, cycles: map<JobId, Cycle>)
    requires Inv(s) && Enabled(s, e) && CyclesSound(s, cycles)
    ensures CyclesSound(Apply(s, e), NextCycles(s, e, cycles))
  {
    hide Apply, Enabled, Accounted, BackedOff, Inv;
    var s' := Apply(s, e);
    forall id | id in s'.t.jobs
      ensures Accounted(s'.t.jobs[id], CycleAfter(s, e, cycles, id)) && BackedOff(s', id, CycleAfter(s, e, cycles, id))
    {
      if id !in s.t.jobs || Revives(s, e, id) {
        FreshCycle(s, e, id);
      } else if RecordsFailure(s, e, id) {
        FailureKeepsCycle(s, e, cycles[id]);
      } else if e.Reserve? && e.choice == Some(id) {
        ReservationKeepsCycle(s, e, cycles[id]);
      } else {
        OtherStepKeepsCycle(s, e, cycles[id], id);
      }
    }
  }

  /** The accounting and the backoff hold for every job in every reachable state. */
  lemma {:induction false} CyclesAccounted(run: Run, k: nat)
    requires run.Valid() && k < |run.states|
    ensures CyclesSound(run.states[k], Cycles(run, k))
  {
    hide Apply, Enabled, CyclesSound, NextCycles, Inv;
    if k > 0 {
      CyclesAccounted(run, k - 1);
      ReachableInv(run, k - 1);
      assert run.Follows(k - 1);
      StepKeepsCycles(run.states[k - 1], run.steps[k - 1], Cycles(run, k - 1));
    } else {
      InitialCyclesSound();
    }
  }

  lemma InitialCyclesSound()
    ensures CyclesSound(INITIAL, map[])
  {}

  /** In every reachable state: a pending row has no attempt, a retrying one is within its budget, a
      failed one is past it, no row exceeds its budget by more than its takeovers, and each shows the
      reading and message of its cycle's latest failure. */
  lemma RetryAccounting(run: Run, k: nat, id: JobId)
    requires run.Valid() && k < |run.states| && id in run.states[k].t.jobs
    ensures id in Cycles(run, k)
    ensures var job, cycle := run.states[k].t.jobs[id], Cycles(run, k)[id];
            && job.attempts == cycle.failures + cycle.takeovers
                               + (if job.status == Active || job.status == Completed then 1 else 0)
            && (job.status == Pending ==> job.attempts == 0)
            && (job.status == Retry ==> job.attempts <= job.maxRetry)
            && (job.status == Failed ==> job.maxRetry < job.attempts)
            && job.attempts <= job.maxRetry + 1 + cycle.takeovers
            && cycle.failures <= job.maxRetry + 1
            && (cycle.failures == 0 ==> job.lastFailedAt.None? && job.lastError.None?)
            && (0 < cycle.failures ==>
                  && cycle.last.Some?
                  && job.lastFailedAt == Some(cycle.last.value.at) && job.lastError == Some(cycle.last.value.message))
  {
    CyclesAccounted(run, k);
    ReachableInv(run, k);
    assert RowShape(run.states[k].t.jobs[id]);
  }

  lemma ReservedRowWasAvailable(s: System, e: Step)
    requires Inv(s) && Enabled(s, e) && e.Reserve? && e.choice.Some?
    requires s.t.jobs[e.choice.value].status != Active
    ensures e.choice.value in s.t.jobs && s.t.jobs[e.choice.value].Waiting()
    ensures s.t.jobs[e.choice.value].availableAt <= e.now
  {}

  /** The reservation after the i-th recorded failure of a cycle reads its clock at least
      min(2^(i-1), 3600) s after the failure did, and at least the sum of all i delays after the
      cycle began - takeovers in between included. */
  lemma ReservationWaitsForBackoff(run: Run, k: nat)
    requires run.Valid() && k < |run.steps| && run.steps[k].Reserve? && run.steps[k].choice.Some?
    requires run.steps[k].choice.value in run.states[k].t.jobs
    requires run.states[k].t.jobs[run.steps[k].choice.value].status != Active
    ensures run.steps[k].choice.value in Cycles(run, k)
    ensures var job := run.states[k].t.jobs[run.steps[k].choice.value];
            var cycle := Cycles(run, k)[run.steps[k].choice.value];
            0 < cycle.failures ==>
              && job.lastFailedAt.Some?
              && job.lastFailedAt.value + Min(SECOND * Pow2(cycle.failures - 1), 3600 * SECOND) <= run.steps[k].now
              && cycle.begun + Backoff(cycle.failures) <= run.steps[k].now
  {
    hide RetryDelay;
    CyclesAccounted(run, k);
    ReachableInv(run, k);
    assert run.Follows(k);
    var id := run.steps[k].choice.value;
    ReservedRowWasAvailable(run.states[k], run.steps[k]);
    assert RowShape(run.states[k].t.jobs[id]);
    if 0 < Cycles(run, k)[id].failures { RetryDelayIsCappedPower(Cycles(run, k)[id].failures); }
  }

  lemma FailedRowBackedOff(s: System, cycle: Cycle, id: JobId)
    requires id in s.t.jobs && s.t.jobs[id].status == Failed && cycle.takeovers == 0
    requires RowShape(s.t.jobs[id]) && Accounted(s.t.jobs[id], cycle) && BackedOff(s, id, cycle)
    ensures cycle.failures == s.t.jobs[id].maxRetry + 1 && 0 <= s.t.jobs[id].maxRetry
    ensures s.t.jobs[id].lastFailedAt.Some?
    ensures cycle.begun + Backoff(s.t.jobs[id].maxRetry) <= s.t.jobs[id].lastFailedAt.value
  {}

  /** A job that exhausts its budget without takeovers failed maxRetry + 1 times and spent at least the
      backoff of the first maxRetry of them. */
  lemma FailedJobBackedOff(run: Run, k: nat, id: JobId)
    requires run.Valid() && k < |run.states| && id in run.states[k].t.jobs
    requires run.states[k].t.jobs[id].status == Failed
    requires id in Cycles(run, k) && Cycles(run, k)[id].takeovers == 0
    ensures Cycles(run, k)[id].failures == run.states[k].t.jobs[id].maxRetry + 1
    ensures 0 <= run.states[k].t.jobs[id].maxRetry && run.states[k].t.jobs[id].lastFailedAt.Some?
    ensures Cycles(run, k)[id].begun + Backoff(run.states[k].t.jobs[id].maxRetry)
            <= run.states[k].t.jobs[id].lastFailedAt.value
  {
    hide Accounted, BackedOff, RowShape, Backoff;
    CyclesAccounted(run, k);
    ReachableInv(run, k);
    FailedRowBackedOff(run.states[k], Cycles(run, k)[id], id);
  }

  // --------------------------------------------------------------- termination

  /** All reservations that took a row, the takeovers among them, and the attempts granted by dispatches
      and by operator retries (maxRetry + 1 for each job), over the first k steps. */
  datatype Spending = Spending(reserved: nat, takenOver: nat, granted: nat)

  ghost function GrantedNow(s: System, e: Step): nat {
    match e
    case Dispatch(id, message, options, at) =>
      if Accepts(s.t, id, message, options, at) then Weigh(RetryBudget, NewRecord(message, options, at)) else 0
    case OperatorRetry(queue, target, now) =>
      Sum(Only(Apply(s, e).t.jobs, SelectedIds(s.t.jobs, queue, target)), RetryBudget)
    case _ => 0
  }

  ghost function Spent(run: Run, k: nat): Spending
    requires k <= |run.steps| && |run.states| == |run.steps| + 1
  {
    if k == 0 then Spending(0, 0, 0)
    else
      var s, e, before := run.states[k - 1], run.steps[k - 1], Spent(run, k - 1);
      Spending(before.reserved + One(e.Reserve? && e.choice.Some?),
               before.takenOver + One(e.Reserve? && e.choice.Some? && TakesOver(s, e, e.choice.value)),
               before.granted + GrantedNow(s, e))
  }

  /** The step reserves a row that was waiting. */
  ghost predicate Reserves(s: System, e: Step) {
    e.Reserve? && e.choice.Some? && !TakesOver(s, e, e.choice.value)
  }

  lemma FinishSpendsNothing(s: System, e: Step)
    requires Inv(s) && Enabled(s, e) && (e.Heartbeat? || e.Complete? || e.Fail?)
    ensures Sum(Apply(s, e).t.jobs, RetryBudget) <= Sum(s.t.jobs, RetryBudget)
  {
    hide Sum, RetryDelay;
    var id := s.held[e.token].id;
    if Fenced(s.t, id, e.token) {
      if id in Apply(s, e).t.jobs {
        SumPut(s.t.jobs, RetryBudget, id, Apply(s, e).t.jobs[id]);
      } else {
        SumPick(s.t.jobs, RetryBudget, id);
      }
    }
  }

  lemma RemovalSpendsNothing(jobs: map<JobId, Job>, gone: set<JobId>)
    ensures Sum(jobs - gone, RetryBudget) <= Sum(jobs, RetryBudget)
  {
    SumSplit(jobs, RetryBudget, gone);
  }

  lemma ReservationSpends(s: System, e: Step)
    requires Inv(s) && Enabled(s, e) && e.Reserve? && e.choice.Some?
    ensures Sum(Apply(s, e).t.jobs, RetryBudget) + One(Reserves(s, e)) <= Sum(s.t.jobs, RetryBudget)
  {
    hide Sum;
    var id := e.choice.value;
    assert RowShape(s.t.jobs[id]);
    SumPut(s.t.jobs, RetryBudget, id, Apply(s, e).t.jobs[id]);
  }

  lemma RevivalGrants(s: System, e: Step)
    requires e.OperatorRetry?
    ensures Sum(Apply(s, e).t.jobs, RetryBudget) <= Sum(s.t.jobs, RetryBudget) + GrantedNow(s, e)
  {
    hide Sum;
    var ids := SelectedIds(s.t.jobs, e.queue, e.target);
    SumSplit(Apply(s, e).t.jobs, RetryBudget, ids);
    SumSplit(s.t.jobs, RetryBudget, ids);
    assert Apply(s, e).t.jobs - ids == s.t.jobs - ids;
  }

  lemma DispatchGrants(s: System, e: Step)
    requires e.Dispatch?
    ensures Sum(Apply(s, e).t.jobs, RetryBudget) == Sum(s.t.jobs, RetryBudget) + GrantedNow(s, e)
  {
    hide Sum, InsertLocks, ClearExpired, DispatchLocks;
    if Accepts(s.t, e.id, e.message, e.options, e.at) {
      SumPut(s.t.jobs, RetryBudget, e.id, NewRecord(e.message, e.options, e.at));
    }
  }

  /** Reserving a waiting row costs one attempt of the remaining budget; no other step adds to it
      except by what it grants. */
  lemma StepSpends(s: System, e: Step)
    requires Inv(s) && Enabled(s, e)
    ensures Sum(Apply(s, e).t.jobs, RetryBudget) + One(Reserves(s, e))
            <= Sum(s.t.jobs, RetryBudget) + GrantedNow(s, e)
  {
    hide Sum;
    match e
    case Dispatch(_, _, _, _) => DispatchGrants(s, e);
    case Reserve(_, _, _, choice, _) => if choice.Some? { ReservationSpends(s, e); }
    case Heartbeat(_, _) => FinishSpendsNothing(s, e);
    case Complete(_, _) => FinishSpendsNothing(s, e);
    case Fail(_, _, _) => FinishSpendsNothing(s, e);
    case Sweep(scan) => RemovalSpendsNothing(s.t.jobs, s.scans[scan]);
    case OperatorRetry(_, _, _) => RevivalGrants(s, e);
    case OperatorDelete(queue, target) => RemovalSpendsNothing(s.t.jobs, SelectedIds(s.t.jobs, queue, target));
    case _ =>
  }

  /** Between any two points of a run the reservations are paid for by the budget that stood at the first,
      by what was granted since and by the takeovers since. */
  lemma {:induction false} ReservationsArePaidFor(run: Run, i: nat, j: nat)
    requires run.Valid() && i <= j < |run.states|
    ensures Spent(run, j).reserved - Spent(run, i).reserved + Sum(run.states[j].t.jobs, RetryBudget)
            <= Sum(run.states[i].t.jobs, RetryBudget) + Spent(run, j).granted - Spent(run, i).granted
               + Spent(run, j).takenOver - Spent(run, i).takenOver
    decreases j
  {
    hide Apply, Enabled, GrantedNow, TakesOver, Sum, Inv;
    if i < j {
      ReservationsArePaidFor(run, i, j - 1);
      ReachableInv(run, j - 1);
      assert run.Follows(j - 1);
      StepSpends(run.states[j - 1], run.steps[j - 1]);
    }
  }

  /** What a dispatch or an operator's retry grants is maxRetry + 1 attempts a job. */
  lemma GrantIsWholeBudget(message: Message, options: Options, at: Readings, job: Job, now: int)
    requires 1 <= job.maxRetry
    ensures Weigh(RetryBudget, NewRecord(message, options, at)) == NewRecord(message, options, at).maxRetry + 1
    ensures Weigh(RetryBudget, Revived(job, now)) == job.maxRetry + 1
  {}

  /** Over a whole run all reservations together never exceed the sum of maxRetry + 1 over accepted and
      revived jobs plus the takeovers; what is left of that sum covers the budget still standing. */
  lemma TotalReservationsBounded(run: Run, k: nat)
    requires run.Valid() && k < |run.states|
    ensures Spent(run, k).reserved + Sum(run.states[k].t.jobs, RetryBudget)
            <= Spent(run, k).granted + Spent(run, k).takenOver
  {
    ReservationsArePaidFor(run, 0, k);
    SumEmpty(RetryBudget);
  }

  /** Without new dispatches and operator retries the remaining budget is a termination measure: it
      never grows and every reservation of a waiting row shrinks it. */
  lemma BudgetIsTerminationMeasure(s: System, e: Step)
    requires Inv(s) && Enabled(s, e) && !e.Dispatch? && !e.OperatorRetry?
    ensures Sum(Apply(s, e).t.jobs, RetryBudget) <= Sum(s.t.jobs, RetryBudget)
    ensures Reserves(s, e) ==> Sum(Apply(s, e).t.jobs, RetryBudget) < Sum(s.t.jobs, RetryBudget)
  {
    StepSpends(s, e);
  }
}
