/** No starvation within a queue: the jobs ahead of a waiting job are a finite set that only
    reservations of its members, and nothing else, change - downwards. */
module QueueFairness {
  import opened Prelude
  import opened QueueTables
  import opened QueueSystem
  import opened QueueInvariant
  import opened QueueRetries
  import opened QueueTally

  /** The row waits in its queue. */
  ghost predicate Waits(t: Tables, id: JobId) { id in t.jobs && t.jobs[id].Waiting() }

  /** The other waiting rows of the queue that the reservation query may prefer. */
  ghost function Ahead(t: Tables, id: JobId): set<JobId>
    requires id in t.jobs
  {
    set other | other in t.jobs && other != id && t.jobs[other].queue == t.jobs[id].queue
                && t.jobs[other].Waiting() && t.jobs[other].NotAfter(t.jobs[id])
  }

  /** The step's clock readings lie past the moment the waiting row became available; a dispatch that
      asks for a start time asks for a later one. */
  ghost predicate After(e: Step, moment: int) {
    match e
    case Dispatch(_, _, options, at) =>
      moment < (if options.processAt.None? then at.available else options.processAt.value)
    case Fail(_, now, _) => moment < now
    case OperatorRetry(_, _, now) => moment < now
    case _ => true
  }

  /** The step reserves a waiting row of this queue other than the given one. */
  ghost predicate Passes(s: System, e: Step, id: JobId) {
    && Reserves(s, e) && id in s.t.jobs && e.choice.value != id && e.queue == s.t.jobs[id].queue
  }

  lemma WaitingRowKept(s: System, e: Step, id: JobId)
    requires Inv(s) && Enabled(s, e) && Waits(s.t, id) && Waits(Apply(s, e).t, id)
    ensures Apply(s, e).t.jobs[id] == s.t.jobs[id]
  {
    assert RowShape(s.t.jobs[id]) && Coherent(s, id);
    if ActsOn(s, e, id) {
      hide RetryDelay;
    } else {
      UntouchedRow(s, e, id);
    }
  }

  lemma DelayIsPositive(attempts: int)
    ensures 0 < RetryDelay(attempts)
  {
    RetryDelayIsCappedPower(Max(attempts, 1));
  }

  /** A row that joins the waiting rows joins behind. */
  lemma NewcomerIsBehind(s: System, e: Step, id: JobId, other: JobId)
    requires Inv(s) && Enabled(s, e) && Waits(s.t, id) && Waits(Apply(s, e).t, id)
    requires After(e, s.t.jobs[id].availableAt)
    requires other in Ahead(Apply(s, e).t, id)
    ensures other in Ahead(s.t, id)
  {
    WaitingRowKept(s, e, id);
    if other !in s.t.jobs {
      hide InsertLocks, ClearExpired, DispatchLocks;
    } else if ActsOn(s, e, other) {
      assert RowShape(s.t.jobs[other]) && Coherent(s, other);
      if e.Fail? { DelayIsPositive(s.held[e.token].row.attempts); }
      hide RetryDelay;
    } else {
      UntouchedRow(s, e, other);
      hide Apply, Enabled;
    }
  }

  lemma PasserLeaves(s: System, e: Step, id: JobId)
    requires Inv(s) && Enabled(s, e) && Waits(s.t, id) && Waits(Apply(s, e).t, id)
    requires Passes(s, e, id)
    ensures e.choice.value in Ahead(s.t, id) && e.choice.value !in Ahead(Apply(s, e).t, id)
  {
    var chosen := e.choice.value;
    assert Earliest(s.t.jobs, e.queue, e.now, chosen);
    if e.now < s.t.jobs[id].availableAt {
    } else {
      assert Eligible(s.t.jobs, e.queue, e.now, id);
    }
  }

  /** While a row waits and readings lie past its start, no step enlarges the set ahead of it, and a
      reservation from its queue that is neither that row nor a takeover strictly shrinks it. */
  lemma AheadShrinks(s: System, e: Step, id: JobId)
    requires Inv(s) && Enabled(s, e) && Waits(s.t, id) && Waits(Apply(s, e).t, id)
    requires After(e, s.t.jobs[id].availableAt)
    ensures Ahead(Apply(s, e).t, id) <= Ahead(s.t, id)
    ensures Passes(s, e, id) ==> Ahead(Apply(s, e).t, id) < Ahead(s.t, id)
  {
    forall other | other in Ahead(Apply(s, e).t, id) ensures other in Ahead(s.t, id) {
      NewcomerIsBehind(s, e, id, other);
    }
    if Passes(s, e, id) { PasserLeaves(s, e, id); }
  }

  /** How often the row is passed over between steps i and j. */
  ghost function TimesPassed(run: Run, i: nat, j: nat, id: JobId): nat
    requires i <= j <= |run.steps| && |run.states| == |run.steps| + 1
    decreases j
  {
    if i == j then 0
    else TimesPassed(run, i, j - 1, id) + One(Passes(run.states[j - 1], run.steps[j - 1], id))
  }

  lemma SubsetSize(a: set<JobId>, b: set<JobId>)
    requires a <= b
    ensures |a| <= |b|
    ensures a < b ==> |a| < |b|
  {
    assert |b - a| == |b| - |a|;
  }

  /** As long as a row waits, it is passed over at most once for each job ahead of it at the start:
      after that many reservations from its queue, takeovers not counted, it is its turn. */
  lemma {:induction false} NoStarvation(run: Run, i: nat, j: nat, id: JobId)
    requires run.Valid() && i <= j < |run.states|
    requires Waits(run.states[i].t, id) && Waits(run.states[j].t, id)
    requires forall m :: i <= m <= j ==> Waits(run.states[m].t, id)
    requires forall m :: i <= m < j ==> After(run.steps[m], run.states[i].t.jobs[id].availableAt)
    ensures run.states[j].t.jobs[id] == run.states[i].t.jobs[id]
    ensures TimesPassed(run, i, j, id) + |Ahead(run.states[j].t, id)| <= |Ahead(run.states[i].t, id)|
    decreases j
  {
    hide Ahead, Passes;
    if i < j {
      NoStarvation(run, i, j - 1, id);
      ReachableInv(run, j - 1);
      assert run.Follows(j - 1);
      var s, e := run.states[j - 1], run.steps[j - 1];
      WaitingRowKept(s, e, id);
      AheadShrinks(s, e, id);
      SubsetSize(Ahead(Apply(s, e).t, id), Ahead(s.t, id));
    }
  }

  /** With nobody ahead of it, a waiting job is the next the queue hands out: a reservation that reads the
      clock past its start and takes a row takes this one, or one whose lease has run out. */
  lemma FirstInLineIsTaken(s: System, e: Step, id: JobId)
    requires Inv(s) && Enabled(s, e) && Waits(s.t, id) && Ahead(s.t, id) == {}
    requires e.Reserve? && e.choice.Some? && e.queue == s.t.jobs[id].queue && s.t.jobs[id].availableAt <= e.now
    ensures e.choice.value == id || TakesOver(s, e, e.choice.value)
  {
    assert Earliest(s.t.jobs, e.queue, e.now, e.choice.value);
    assert Eligible(s.t.jobs, e.queue, e.now, id);
    assert e.choice.value !in Ahead(s.t, id);
  }

  /** So its turn comes: once a waiting job was passed over as often as there were jobs ahead of it, the
      next reservation from its queue past its start takes it, or takes over an expired lease. */
  lemma TurnComes(run: Run, i: nat, j: nat, id: JobId)
    requires run.Valid() && i <= j < |run.steps| && Waits(run.states[i].t, id)
    requires forall m :: i <= m <= j ==> Waits(run.states[m].t, id)
    requires forall m :: i <= m < j ==> After(run.steps[m], run.states[i].t.jobs[id].availableAt)
    requires TimesPassed(run, i, j, id) == |Ahead(run.states[i].t, id)|
    requires run.steps[j].Reserve? && run.steps[j].choice.Some?
    requires run.steps[j].queue == run.states[i].t.jobs[id].queue
    requires run.states[i].t.jobs[id].availableAt <= run.steps[j].now
    ensures run.steps[j].choice.value == id || TakesOver(run.states[j], run.steps[j], run.steps[j].choice.value)
  {
    hide Ahead, Enabled, Inv, TakesOver;
    NoStarvation(run, i, j, id);
    ReachableInv(run, j);
    assert run.Follows(j);
    FirstInLineIsTaken(run.states[j], run.steps[j], id);
  }
}
