/** The invariant of the queue protocol, kept by every step of every interleaving. */
module QueueInvariant {
  import opened Prelude
  import opened QueueTables
  import opened QueueSystem

  /** A row is active exactly when it carries a lease token and a lease deadline, completed
      exactly when it carries an expiry; its attempts fit its status and budget. */
  ghost predicate RowShape(job: Job) {
    && (job.status == Active <==> job.leaseToken.Some?)
    && (job.status == Active <==> job.leasedUntil.Some?)
    && (job.status == Completed <==> job.expiresAt.Some?)
    && (job.status == Completed <==> job.completedAt.Some?)
    && 1 <= job.maxRetry
    && 0 <= job.retentionSecs
    && (job.status == Completed ==> job.expiresAt.value == job.completedAt.value + job.retentionSecs * SECOND)
    && (job.status == Pending ==> job.attempts == 0)
    && (job.status == Retry ==> job.attempts <= job.maxRetry)
    && (job.status == Active || job.status == Completed ==> 1 <= job.attempts)
    && (job.status == Failed ==> job.maxRetry < job.attempts)
  }

  /** While a copy's token still stands on the row, copy and row differ in the deadline at most. */
  ghost predicate Coherent(s: System, id: JobId)
    requires id in s.t.jobs
  {
    var job := s.t.jobs[id];
    job.leaseToken.Some? ==>
      && job.leaseToken.value in s.held
      && s.held[job.leaseToken.value].id == id
      && job == s.held[job.leaseToken.value].row.(leasedUntil := job.leasedUntil)
  }

  ghost predicate CopyShape(s: System, token: Token)
    requires token in s.held
  {
    var copy := s.held[token];
    && RowShape(copy.row)
    && copy.row.leaseToken == Some(token)
    && 0 <= copy.since <= copy.beat <= s.clock
    && SECOND <= copy.reservation
  }

  ghost predicate Inv(s: System) {
    && 0 <= s.clock
    && (forall id :: id in s.t.jobs ==> RowShape(s.t.jobs[id]))
    && (forall id :: id in s.t.jobs ==> Coherent(s, id))
    && (forall token :: token in s.held ==> CopyShape(s, token))
  }

  lemma DurationSecondsNonNegative(duration: int)
    ensures 0 <= DurationSeconds(duration)
  {}

  lemma DispatchKeepsInv(s: System, e: Step)
    requires Inv(s) && e.Dispatch? && Enabled(s, e)
    ensures Inv(Apply(s, e))
  {
    DurationSecondsNonNegative(e.options.retention);
    var s' := Apply(s, e);
    forall id | id in s'.t.jobs ensures RowShape(s'.t.jobs[id]) && Coherent(s', id) {
      if id in s.t.jobs {
        assert s'.t.jobs[id] == s.t.jobs[id];
        assert Coherent(s, id);
      }
    }
  }

  lemma ReserveKeepsInv(s: System, e: Step)
    requires Inv(s) && e.Reserve? && Enabled(s, e)
    ensures Inv(Apply(s, e))
  {
    var s' := Apply(s, e);
    forall id | id in s'.t.jobs ensures RowShape(s'.t.jobs[id]) && Coherent(s', id) {
      assert id in s.t.jobs && RowShape(s.t.jobs[id]) && Coherent(s, id);
    }
    forall token | token in s'.held ensures CopyShape(s', token) {
      if token in s.held { assert CopyShape(s, token); }
    }
  }

  lemma HeartbeatKeepsInv(s: System, e: Step)
    requires Inv(s) && e.Heartbeat? && Enabled(s, e)
    ensures Inv(Apply(s, e))
  {
    var s' := Apply(s, e);
    forall id | id in s'.t.jobs ensures RowShape(s'.t.jobs[id]) && Coherent(s', id) {
      assert id in s.t.jobs && RowShape(s.t.jobs[id]) && Coherent(s, id);
    }
    forall token | token in s'.held ensures CopyShape(s', token) {
      assert CopyShape(s, token);
    }
  }

  lemma FinishKeepsInv(s: System, e: Step)
    requires Inv(s) && (e.Complete? || e.Fail?) && Enabled(s, e)
    ensures Inv(Apply(s, e))
  {
    hide RetryDelay, DropOwnedLocks;
    var s' := Apply(s, e);
    var copy := s.held[e.token];
    assert CopyShape(s, e.token);
    forall id | id in s'.t.jobs ensures RowShape(s'.t.jobs[id]) && Coherent(s', id) {
      assert id in s.t.jobs && RowShape(s.t.jobs[id]) && Coherent(s, id);
    }
  }

  lemma TableEditKeepsInv(s: System, e: Step)
    requires Inv(s) && Enabled(s, e)
    requires e.CleanLocks? || e.Sweep? || e.OperatorRetry? || e.OperatorDelete?
    ensures Inv(Apply(s, e))
  {
    var s' := Apply(s, e);
    forall id | id in s'.t.jobs ensures RowShape(s'.t.jobs[id]) && Coherent(s', id) {
      assert id in s.t.jobs && RowShape(s.t.jobs[id]) && Coherent(s, id);
    }
    forall token | token in s'.held ensures CopyShape(s', token) {
      assert CopyShape(s, token);
    }
  }

  lemma StepKeepsInv(s: System, e: Step)
    requires Inv(s) && Enabled(s, e)
    ensures Inv(Apply(s, e))
  {
    match e
    case Dispatch(_, _, _, _) => DispatchKeepsInv(s, e);
    case Reserve(_, _, _, _, _) => ReserveKeepsInv(s, e);
    case Heartbeat(_, _) => HeartbeatKeepsInv(s, e);
    case Complete(_, _) => FinishKeepsInv(s, e);
    case Fail(_, _, _) => FinishKeepsInv(s, e);
    case CleanLocks(_) => TableEditKeepsInv(s, e);
    case Sweep(_) => TableEditKeepsInv(s, e);
    case OperatorRetry(_, _, _) => TableEditKeepsInv(s, e);
    case OperatorDelete(_, _) => TableEditKeepsInv(s, e);
    case Tick(_) =>
      forall token | token in s.held ensures CopyShape(Apply(s, e), token) { assert CopyShape(s, token); }
      forall id | id in s.t.jobs ensures Coherent(Apply(s, e), id) { assert Coherent(s, id); }
    case Scan(_, _, _) =>
      forall token | token in s.held ensures CopyShape(Apply(s, e), token) { assert CopyShape(s, token); }
      forall id | id in s.t.jobs ensures Coherent(Apply(s, e), id) { assert Coherent(s, id); }
    case Abandon(_) =>
      forall token | token in s.held ensures CopyShape(Apply(s, e), token) { assert CopyShape(s, token); }
      forall id | id in s.t.jobs ensures Coherent(Apply(s, e), id) { assert Coherent(s, id); }
  }

  /** Every reachable state satisfies the invariant. */
  lemma {:induction false} ReachableInv(run: Run, k: nat)
    requires run.Valid() && k < |run.states|
    ensures Inv(run.states[k])
  {
    if k > 0 {
      ReachableInv(run, k - 1);
      assert run.Follows(k - 1);
      StepKeepsInv(run.states[k - 1], run.steps[k - 1]);
    }
  }

  /** The step may change this row. */
  ghost predicate ActsOn(s: System, e: Step, id: JobId) {
    match e
    case Reserve(_, _, _, choice, _) => choice == Some(id)
    case Heartbeat(token, _) => token in s.held && s.held[token].id == id && Fenced(s.t, id, token)
    case Complete(token, _) => token in s.held && s.held[token].id == id && Fenced(s.t, id, token)
    case Fail(token, _, _) => token in s.held && s.held[token].id == id && Fenced(s.t, id, token)
    case OperatorRetry(queue, target, _) => Selected(s.t.jobs, queue, target, id)
    case _ => false
  }

  /** Every other step leaves the row alone, if it leaves it there. */
  lemma UntouchedRow(s: System, e: Step, id: JobId)
    requires Enabled(s, e) && id in s.t.jobs && id in Apply(s, e).t.jobs && !ActsOn(s, e, id)
    ensures Apply(s, e).t.jobs[id] == s.t.jobs[id]
  {
    hide RetryDelay, InsertLocks, ClearExpired, DispatchLocks, NewRecord, Earliest, Eligible, ScanResult;
  }

  /** Later states remember every copy an earlier one held; only heartbeat readings move on. */
  ghost predicate Remembers(s: System, s': System) {
    && s.clock <= s'.clock
    && s.held.Keys <= s'.held.Keys
    && forall token :: token in s.held ==> s'.held[token].(beat := 0) == s.held[token].(beat := 0)
                                           && s.held[token].beat <= s'.held[token].beat
  }

  lemma StepRemembers(s: System, e: Step)
    requires Enabled(s, e)
    ensures Remembers(s, Apply(s, e))
  {}

  lemma {:induction false} RunRemembers(run: Run, i: nat, j: nat)
    requires run.Valid() && i <= j < |run.states|
    ensures Remembers(run.states[i], run.states[j])
    decreases j
  {
    if i < j {
      RunRemembers(run, i, j - 1);
      assert run.Follows(j - 1);
      StepRemembers(run.states[j - 1], run.steps[j - 1]);
    }
  }
}
