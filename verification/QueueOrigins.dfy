/** Where a row comes from: every row, and every worker's copy, carries what its dispatch asked for, and
    jobs that ask for no start time are handed out in the order of their dispatches. */
module QueueOrigins {
  import opened Prelude
  import opened QueueTables
  import opened QueueSystem
  import opened QueueInvariant
  import opened QueueLocks
  import opened QueueHandout

  /** A duration as the job table stores it: whole seconds, at least one if it is positive at all. */
  predicate InSeconds(seconds: int, duration: int) {
    if duration <= 0 then seconds == 0
    else 1 <= seconds && duration < (seconds + 1) * SECOND && (seconds * SECOND <= duration || seconds == 1)
  }

  /** The row carries what the dispatch step asked for. */
  predicate Carries(job: Job, e: Step)
    requires e.Dispatch?
  {
    && job.queue == (if e.options.queue == "" then "default" else e.options.queue)
    && job.jobType == e.message.jobType && job.payload == e.message.payload
    && job.maxRetry == (if 0 < e.options.maxRetry then e.options.maxRetry else 25)
    && InSeconds(job.timeoutSecs, e.options.timeout)
    && InSeconds(job.retentionSecs, e.options.retention)
    && job.createdAt == e.at.created
    && (job.status == Pending ==>
          job.availableAt == if e.options.processAt.Some? then e.options.processAt.value else e.at.available)
  }

  /** Step m dispatched the id, and its row has been there ever since, up to state k. */
  ghost predicate Origin(run: Run, m: nat, k: nat, id: JobId)
    requires m < k <= |run.steps| && |run.states| == |run.steps| + 1
  {
    AcceptsId(run, m, id) && forall n :: m < n <= k ==> id in run.states[n].t.jobs
  }

  lemma SecondsOfDuration(duration: int)
    ensures InSeconds(DurationSeconds(duration), duration)
  {}

  lemma NewRowCarries(s: System, e: Step, id: JobId)
    requires Enabled(s, e) && id !in s.t.jobs && id in Apply(s, e).t.jobs
    ensures Accepted(s, e) && e.id == id && Carries(Apply(s, e).t.jobs[id], e)
  {
    hide InsertLocks, ClearExpired, DispatchLocks, DurationSeconds, InSeconds;
    if e.Dispatch? {
      SecondsOfDuration(e.options.timeout);
      SecondsOfDuration(e.options.retention);
    }
  }

  lemma OldRowCarries(s: System, e: Step, id: JobId, origin: Step)
    requires Inv(s) && Enabled(s, e) && id in s.t.jobs && id in Apply(s, e).t.jobs
    requires origin.Dispatch? && Carries(s.t.jobs[id], origin)
    ensures Carries(Apply(s, e).t.jobs[id], origin)
  {
    hide InSeconds;
    assert RowShape(s.t.jobs[id]);
    if ActsOn(s, e, id) {
      hide RetryDelay, DropOwnedLocks;
    } else {
      UntouchedRow(s, e, id);
      hide Apply, Enabled;
    }
  }

  /** In every reachable state each row carries what its own dispatch asked for, however often it was
      reserved, failed, taken over, revived or kept since. */
  lemma {:induction false} RowCarriesItsDispatch(run: Run, k: nat, id: JobId) returns (m: nat)
    requires run.Valid() && k < |run.states| && id in run.states[k].t.jobs
    ensures m < k && Origin(run, m, k, id) && run.steps[m].Dispatch?
    ensures Carries(run.states[k].t.jobs[id], run.steps[m])
  {
    hide Apply, Enabled, Inv, Accepted, Carries;
    assert k > 0;
    var s, e := run.states[k - 1], run.steps[k - 1];
    assert run.Follows(k - 1);
    ReachableInv(run, k - 1);
    if id in s.t.jobs {
      m := RowCarriesItsDispatch(run, k - 1, id);
      OldRowCarries(s, e, id, run.steps[m]);
    } else {
      m := k - 1;
      NewRowCarries(s, e, id);
      AcceptedIsDispatch(s, e);
    }
  }

  lemma CopyIsOldOrReserved(s: System, e: Step, token: Token)
    requires Inv(s) && Enabled(s, e) && token in Apply(s, e).held
    ensures token in s.held ==>
              Apply(s, e).held[token].row == s.held[token].row && Apply(s, e).held[token].id == s.held[token].id
    ensures token !in s.held ==>
              && Apply(s, e).held[token].id in Apply(s, e).t.jobs
              && Apply(s, e).held[token].row == Apply(s, e).t.jobs[Apply(s, e).held[token].id]
  {}

  /** So a worker always works on what was dispatched: the copy it holds carries the message and options of
      an accepted dispatch of its id. */
  lemma {:induction false} WorkerGetsWhatWasDispatched(run: Run, k: nat, token: Token) returns (m: nat)
    requires run.Valid() && k < |run.states| && token in run.states[k].held
    ensures m < k && AcceptsId(run, m, run.states[k].held[token].id) && run.steps[m].Dispatch?
    ensures Carries(run.states[k].held[token].row, run.steps[m])
  {
    hide Apply, Enabled, Inv, Accepted, Carries;
    assert k > 0;
    assert run.Follows(k - 1);
    ReachableInv(run, k - 1);
    CopyIsOldOrReserved(run.states[k - 1], run.steps[k - 1], token);
    if token in run.states[k - 1].held {
      m := WorkerGetsWhatWasDispatched(run, k - 1, token);
    } else {
      m := RowCarriesItsDispatch(run, k, run.states[k].held[token].id);
    }
  }

  lemma OriginIsUnique(run: Run, m: nat, n: nat, k: nat, id: JobId)
    requires run.Valid() && m < k <= |run.steps| && n < k && Origin(run, m, k, id) && Origin(run, n, k, id)
    ensures m == n
  {
    assert run.Follows(m) && run.Follows(n);
    AcceptedIsNew(run.states[m], run.steps[m]);
    AcceptedIsNew(run.states[n], run.steps[n]);
  }

  lemma AcceptedIsNew(s: System, e: Step)
    requires Accepted(s, e)
    ensures e.id !in s.t.jobs
  {}

  /** First come, first served: of two jobs of a queue that ask for no start time, one dispatched wholly before
      the other, the later one is not handed out while the earlier one still waits for its first turn. */
  lemma FirstComeFirstServed(run: Run, i: nat, j: nat, k: nat, a: JobId, b: JobId)
    requires run.Valid() && i < k && j < k < |run.steps|
    requires Origin(run, i, k, a) && Origin(run, j, k, b) && run.steps[i].Dispatch? && run.steps[j].Dispatch?
    requires run.steps[i].options.processAt.None? && run.steps[j].options.processAt.None?
    requires run.steps[i].at.created < run.steps[j].at.available
    requires run.states[k].t.jobs[a].status == Pending && run.states[k].t.jobs[b].status == Pending
    requires run.states[k].t.jobs[a].queue == run.states[k].t.jobs[b].queue
    ensures !(run.steps[k].Reserve? && run.steps[k].choice == Some(b))
  {
    hide Apply, InSeconds, Accepted;
    var m := RowCarriesItsDispatch(run, k, a);
    var n := RowCarriesItsDispatch(run, k, b);
    OriginIsUnique(run, i, m, k, a);
    OriginIsUnique(run, j, n, k, b);
    assert run.Follows(i) && run.Follows(k);
    if run.steps[k].Reserve? && run.steps[k].choice == Some(b) {
      ChosenIsStarted(run.states[k], run.steps[k]);
      ReservationTakesTheFirst(run.states[k], run.steps[k], a);
    }
  }

  lemma ChosenIsStarted(s: System, e: Step)
    requires Enabled(s, e) && e.Reserve? && e.choice.Some? && s.t.jobs[e.choice.value].status == Pending
    ensures s.t.jobs[e.choice.value].availableAt <= e.now && s.t.jobs[e.choice.value].queue == e.queue
  {}
}
