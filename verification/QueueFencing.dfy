/** Lease fencing: tokens are issued once, a token that left its row never comes back, and a
    worker whose token was superseded can no longer change the tables. */
module QueueFencing {
  import opened Prelude
  import opened QueueTables
  import opened QueueSystem
  import opened QueueInvariant

  /** No row carries the token. */
  ghost predicate Dead(t: Tables, token: Token) {
    forall id :: id in t.jobs ==> t.jobs[id].leaseToken != Some(token)
  }

  ghost predicate Uses(e: Step, token: Token) {
    || (e.Heartbeat? && e.token == token)
    || (e.Complete? && e.token == token)
    || (e.Fail? && e.token == token)
  }

  /** The worker holding the token finished the job: the fence let its update through. */
  ghost predicate Finishes(s: System, e: Step, token: Token) {
    && (e.Complete? || e.Fail?) && e.token == token
    && token in s.held && Fenced(s.t, s.held[token].id, token)
  }

  /** A reservation that took a row issued the token. */
  ghost predicate Issues(e: Step, token: Token) {
    e.Reserve? && e.choice.Some? && e.token == token
  }

  /** The lease columns are set exactly on active rows, and no two rows carry the same token. */
  ghost predicate LeasesSound(jobs: map<JobId, Job>) {
    && (forall id :: id in jobs ==> (jobs[id].status == Active <==> jobs[id].leaseToken.Some?))
    && (forall id :: id in jobs ==> (jobs[id].status == Active <==> jobs[id].leasedUntil.Some?))
    && (forall a, b :: a in jobs && b in jobs && a != b && jobs[a].leaseToken.Some? ==>
          jobs[a].leaseToken != jobs[b].leaseToken)
  }

  lemma LeaseShape(run: Run, k: nat)
    requires run.Valid() && k < |run.states|
    ensures LeasesSound(run.states[k].t.jobs)
  {
    ReachableInv(run, k);
    var s := run.states[k];
    forall a, b | a in s.t.jobs && b in s.t.jobs && a != b && s.t.jobs[a].leaseToken.Some?
      ensures s.t.jobs[a].leaseToken != s.t.jobs[b].leaseToken
    {
      assert Coherent(s, a) && Coherent(s, b);
    }
  }

  lemma IssueIsFresh(s: System, e: Step, token: Token)
    requires Inv(s) && Enabled(s, e) && Issues(e, token)
    ensures token !in s.held && token in Apply(s, e).held
  {}

  /** No lease token is ever issued twice. */
  lemma TokensIssuedOnce(run: Run, i: nat, j: nat, token: Token)
    requires run.Valid() && i < j < |run.steps|
    requires Issues(run.steps[i], token)
    ensures !Issues(run.steps[j], token)
  {
    ReachableInv(run, i);
    ReachableInv(run, j);
    RunRemembers(run, i + 1, j);
    assert run.Follows(i) && run.Follows(j);
    IssueIsFresh(run.states[i], run.steps[i], token);
    if Issues(run.steps[j], token) { IssueIsFresh(run.states[j], run.steps[j], token); }
  }

  /** A reservation, a takeover included, retires whatever token its row carried before. */
  lemma TakeoverRetiresToken(s: System, e: Step)
    requires Inv(s) && Enabled(s, e) && e.Reserve? && e.choice.Some?
    requires s.t.jobs[e.choice.value].leaseToken.Some?
    ensures Dead(Apply(s, e).t, s.t.jobs[e.choice.value].leaseToken.value)
    ensures Fenced(Apply(s, e).t, e.choice.value, e.token)
  {
    var id, previous := e.choice.value, s.t.jobs[e.choice.value].leaseToken.value;
    assert Coherent(s, id);
    forall other | other in Apply(s, e).t.jobs ensures Apply(s, e).t.jobs[other].leaseToken != Some(previous) {
      assert other in s.t.jobs && Coherent(s, other);
    }
  }

  /** A finish that passes the fence retires its token. */
  lemma FinishRetiresToken(s: System, e: Step, token: Token)
    requires Inv(s) && Enabled(s, e) && Finishes(s, e, token)
    ensures Dead(Apply(s, e).t, token)
  {
    forall other | other in Apply(s, e).t.jobs ensures Apply(s, e).t.jobs[other].leaseToken != Some(token) {
      assert other in s.t.jobs && Coherent(s, other);
      assert Coherent(s, s.held[token].id);
    }
  }

  lemma DeadStepStaysDead(s: System, e: Step, token: Token)
    requires Inv(s) && Enabled(s, e) && token in s.held && Dead(s.t, token)
    ensures Dead(Apply(s, e).t, token)
  {
    var s' := Apply(s, e);
    forall id | id in s'.t.jobs ensures s'.t.jobs[id].leaseToken != Some(token) {
      if id in s.t.jobs { assert s.t.jobs[id].leaseToken != Some(token); }
    }
  }

  lemma {:induction false} DeadStaysDead(run: Run, i: nat, j: nat, token: Token)
    requires run.Valid() && i <= j < |run.states|
    requires token in run.states[i].held && Dead(run.states[i].t, token)
    ensures token in run.states[j].held && Dead(run.states[j].t, token)
    decreases j
  {
    hide Apply, Enabled, Inv, Dead;
    RunRemembers(run, i, j);
    if i < j {
      DeadStaysDead(run, i, j - 1, token);
      ReachableInv(run, j - 1);
      assert run.Follows(j - 1);
      DeadStepStaysDead(run.states[j - 1], run.steps[j - 1], token);
    }
  }

  lemma DeadTokenIsInert(s: System, e: Step, token: Token)
    requires token in s.held && Dead(s.t, token) && Uses(e, token)
    ensures Apply(s, e).t == s.t
    ensures !Finishes(s, e, token)
  {}

  /** From the moment a token has left its row - by takeover, finish, cleanup or any other step -
      every heartbeat, completion and failure under it leaves jobs, locks and counters unchanged. */
  lemma SupersededTokenIsInert(run: Run, i: nat, j: nat, token: Token)
    requires run.Valid() && i <= j < |run.steps|
    requires token in run.states[i].held && Dead(run.states[i].t, token)
    requires Uses(run.steps[j], token)
    ensures run.states[j + 1].t == run.states[j].t
    ensures !Finishes(run.states[j], run.steps[j], token)
  {
    DeadStaysDead(run, i, j, token);
    assert run.Follows(j);
    DeadTokenIsInert(run.states[j], run.steps[j], token);
  }

  /** Each token leads to at most one complete-or-fail that passes the fence; after it the worker
      can retry as often as it likes without effect. */
  lemma AtMostOneFinish(run: Run, i: nat, j: nat, token: Token)
    requires run.Valid() && i < j < |run.steps|
    requires Finishes(run.states[i], run.steps[i], token)
    requires Uses(run.steps[j], token)
    ensures !Finishes(run.states[j], run.steps[j], token)
    ensures run.states[j + 1].t == run.states[j].t
  {
    ReachableInv(run, i);
    assert run.Follows(i);
    RunRemembers(run, i, i + 1);
    FinishRetiresToken(run.states[i], run.steps[i], token);
    SupersededTokenIsInert(run, i + 1, j, token);
  }

  /** A finish changes the tables exactly when it passes the fence. */
  lemma FinishEffectiveIffFenced(s: System, e: Step)
    requires Inv(s) && Enabled(s, e) && (e.Complete? || e.Fail?)
    ensures Apply(s, e).t != s.t <==> Finishes(s, e, e.token)
  {
    var copy := s.held[e.token];
    if Finishes(s, e, e.token) {
      if e.Complete? {
        assert Processed(Apply(s, e).t, copy.row.queue) == Processed(s.t, copy.row.queue) + 1;
      } else {
        assert Apply(s, e).t.jobs[copy.id].status != Active;
      }
    }
  }

  /** The columns a worker's copy decides from agree with the row. */
  ghost predicate Agrees(row: Job, copy: Job) {
    row.queue == copy.queue && row.attempts == copy.attempts
    && row.maxRetry == copy.maxRetry && row.retentionSecs == copy.retentionSecs
  }

  lemma FencedCopyAgrees(s: System, token: Token)
    requires Inv(s) && token in s.held && Fenced(s.t, s.held[token].id, token)
    ensures Agrees(s.t.jobs[s.held[token].id], s.held[token].row)
  {
    assert Coherent(s, s.held[token].id);
  }

  lemma AgreeingCopyDecidesAlike(t: Tables, id: JobId, copy: Job, token: Token, now: int, reason: string)
    requires id in t.jobs
    requires Fenced(t, id, token) ==> Agrees(t.jobs[id], copy)
    ensures CompleteTx(t, id, copy, token, now) == CompleteTx(t, id, t.jobs[id], token, now)
    ensures FailTx(t, id, copy, token, now, reason) == FailTx(t, id, t.jobs[id], token, now, reason)
  {}

  /** While the token stands on the row, the worker's copy agrees with it, so completing or failing
      from the copy is completing or failing from the row - also when the task ID was deleted and
      dispatched again with other options in between, for then the token is gone and both do nothing. */
  lemma CopyDecidesAsRow(run: Run, k: nat, token: Token, now: int, reason: string)
    requires run.Valid() && k < |run.states| && token in run.states[k].held
    requires run.states[k].held[token].id in run.states[k].t.jobs
    ensures var t, copy := run.states[k].t, run.states[k].held[token];
            && (Fenced(t, copy.id, token) ==> Agrees(t.jobs[copy.id], copy.row))
            && CompleteTx(t, copy.id, copy.row, token, now) == CompleteTx(t, copy.id, t.jobs[copy.id], token, now)
            && FailTx(t, copy.id, copy.row, token, now, reason)
               == FailTx(t, copy.id, t.jobs[copy.id], token, now, reason)
  {
    ReachableInv(run, k);
    var s := run.states[k];
    if Fenced(s.t, s.held[token].id, token) { FencedCopyAgrees(s, token); }
    AgreeingCopyDecidesAlike(s.t, s.held[token].id, s.held[token].row, token, now, reason);
  }
}
