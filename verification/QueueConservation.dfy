/** Conservation: every accepted job of a queue is still there, was processed, was deleted by an
    operator - or was lost to a cleanup that trusted a stale scan. */
module QueueConservation {
  import opened Prelude
  import opened QueueTables
  import opened QueueSystem
  import opened QueueInvariant
  import opened QueueTally

  function AcceptedNow(s: System, e: Step, queue: string): nat {
    One(e.Dispatch? && Accepts(s.t, e.id, e.message, e.options, e.at) && QueueName(e.options) == queue)
  }

  ghost function DeletedNow(s: System, e: Step, queue: string): nat {
    if e.OperatorDelete? then Sum(Only(s.t.jobs, SelectedIds(s.t.jobs, e.queue, e.target)), LiveIn(queue)) else 0
  }

  /** The rows of the queue a cleanup deletes although they are not completed. */
  ghost function LostNow(s: System, e: Step, queue: string): nat {
    if e.Sweep? && e.scan in s.scans then Sum(Only(s.t.jobs, s.scans[e.scan]), LiveIn(queue)) else 0
  }

  /** Totals over the first k steps of a run. */
  datatype Totals = Totals(accepted: nat, deleted: nat, lost: nat)

  ghost function Count(run: Run, k: nat, queue: string): Totals
    requires k <= |run.steps| && |run.states| == |run.steps| + 1
  {
    if k == 0 then Totals(0, 0, 0)
    else
      var before := Count(run, k - 1, queue);
      var s, e := run.states[k - 1], run.steps[k - 1];
      Totals(before.accepted + AcceptedNow(s, e, queue),
             before.deleted + DeletedNow(s, e, queue),
             before.lost + LostNow(s, e, queue))
  }

  ghost function Present(t: Tables, queue: string): nat { Sum(t.jobs, LiveIn(queue)) + Processed(t, queue) }

  lemma CompleteBalance(t: Tables, id: JobId, copy: Job, token: Token, now: int, queue: string)
    requires Fenced(t, id, token) ==> t.jobs[id].queue == copy.queue
    ensures Present(CompleteTx(t, id, copy, token, now), queue) == Present(t, queue)
  {
    if Fenced(t, id, token) {
      hide Sum;
      if copy.retentionSecs <= 0 {
        SumPick(t.jobs, LiveIn(queue), id);
      } else {
        SumPut(t.jobs, LiveIn(queue), id, Retained(t.jobs[id], now, copy.retentionSecs));
      }
    }
  }

  lemma FailBalance(t: Tables, id: JobId, copy: Job, token: Token, now: int, reason: string, queue: string)
    ensures Present(FailTx(t, id, copy, token, now, reason), queue) == Present(t, queue)
  {
    if Fenced(t, id, token) {
      hide Sum, RetryDelay;
      SumPut(t.jobs, LiveIn(queue), id, Failing(t.jobs[id], copy, now, reason));
    }
  }

  lemma HeartbeatBalance(t: Tables, id: JobId, token: Token, now: int, reservation: int, queue: string)
    ensures Present(HeartbeatTx(t, id, token, now, reservation), queue) == Present(t, queue)
  {
    if Fenced(t, id, token) {
      hide Sum;
      SumPut(t.jobs, LiveIn(queue), id, t.jobs[id].(leasedUntil := Some(now + reservation)));
    }
  }

  lemma RemovalBalance(t: Tables, gone: set<JobId>, locks: map<LockKey, Lock>, queue: string)
    ensures Present(t.(jobs := t.jobs - gone, locks := locks), queue) + Sum(Only(t.jobs, gone), LiveIn(queue))
            == Present(t, queue)
  {
    SumSplit(t.jobs, LiveIn(queue), gone);
  }

  lemma DispatchBalance(t: Tables, e: Step, queue: string)
    requires e.Dispatch? && Accepts(t, e.id, e.message, e.options, e.at)
    ensures Present(DispatchTx(t, e.id, e.message, e.options, e.at), queue)
            == Present(t, queue) + One(QueueName(e.options) == queue)
  {
    hide Sum, InsertLocks, ClearExpired, DispatchLocks;
    SumPut(t.jobs, LiveIn(queue), e.id, NewRecord(e.message, e.options, e.at));
  }

  lemma ReserveBalance(t: Tables, id: JobId, token: Token, now: int, reservation: int, queue: string)
    requires id in t.jobs && t.jobs[id].status != Completed
    ensures Present(ReserveTx(t, id, token, now, reservation), queue) == Present(t, queue)
  {
    hide Sum;
    SumPut(t.jobs, LiveIn(queue), id, Leased(t.jobs[id], token, now, reservation));
  }

  /** Each step moves jobs between the accounts without creating or dropping one. */
  lemma StepBalance(s: System, e: Step, queue: string)
    requires Inv(s) && Enabled(s, e)
    ensures Present(Apply(s, e).t, queue) + DeletedNow(s, e, queue) + LostNow(s, e, queue)
            == Present(s.t, queue) + AcceptedNow(s, e, queue)
  {
    hide Present, Sum;
    match e
    case Dispatch(id, message, options, at) =>
      if Accepts(s.t, id, message, options, at) { DispatchBalance(s.t, e, queue); }
    case Reserve(_, now, reservation, choice, token) =>
      if choice.Some? { ReserveBalance(s.t, choice.value, token, now, reservation, queue); }
    case Heartbeat(token, now) =>
      HeartbeatBalance(s.t, s.held[token].id, token, now, s.held[token].reservation, queue);
    case Complete(token, now) =>
      if Fenced(s.t, s.held[token].id, token) { assert Coherent(s, s.held[token].id); }
      CompleteBalance(s.t, s.held[token].id, s.held[token].row, token, now, queue);
    case Fail(token, now, reason) =>
      FailBalance(s.t, s.held[token].id, s.held[token].row, token, now, reason, queue);
    case Sweep(scan) =>
      RemovalBalance(s.t, s.scans[scan], Apply(s, e).t.locks, queue);
    case OperatorDelete(name, target) =>
      RemovalBalance(s.t, SelectedIds(s.t.jobs, name, target), Apply(s, e).t.locks, queue);
    case OperatorRetry(_, _, _) => OperatorRetryBalance(s, e, queue);
    case CleanLocks(_) => SameJobsBalance(s.t, Apply(s, e).t, queue);
    case _ =>
  }

  lemma OperatorRetryBalance(s: System, e: Step, queue: string)
    requires e.OperatorRetry?
    ensures Present(Apply(s, e).t, queue) == Present(s.t, queue)
  {
    hide Sum;
    SumAgree(s.t.jobs, Apply(s, e).t.jobs, LiveIn(queue));
  }

  lemma SameJobsBalance(t: Tables, t': Tables, queue: string)
    requires t.jobs == t'.jobs && t.stats == t'.stats
    ensures Present(t, queue) == Present(t', queue)
  {}

  /** The accounts balance in every reachable state, with what overlapping cleanups lost. */
  lemma {:induction false} Balance(run: Run, k: nat, queue: string)
    requires run.Valid() && k < |run.states|
    ensures var totals := Count(run, k, queue);
            totals.accepted == Present(run.states[k].t, queue) + totals.deleted + totals.lost
  {
    if k > 0 {
      Balance(run, k - 1, queue);
      ReachableInv(run, k - 1);
      assert run.Follows(k - 1);
      StepBalance(run.states[k - 1], run.steps[k - 1], queue);
    } else {
      SumZero(map[], LiveIn(queue));
    }
  }

  /** Conservation as an operator can read it off the inspector. */
  ghost predicate Conserved(run: Run, k: nat, queue: string, now: int)
    requires k <= |run.steps| && |run.states| == |run.steps| + 1
  {
    var stats := Stats(run.states[k].t, queue, now);
    Count(run, k, queue).accepted
      == stats.pending + stats.scheduled + stats.active + stats.retry + stats.failed
         + stats.processed + Count(run, k, queue).deleted
  }

  /** The cleanup is about to delete a row that is no longer completed. */
  ghost predicate Lossy(s: System, e: Step) {
    e.Sweep? && e.scan in s.scans
    && exists id :: id in s.scans[e.scan] && id in s.t.jobs && s.t.jobs[id].status != Completed
  }

  lemma LossyLoses(s: System, e: Step)
    ensures Lossy(s, e) <==> exists queue :: LostNow(s, e, queue) != 0
  {
    if Lossy(s, e) {
      var id :| id in s.scans[e.scan] && id in s.t.jobs && s.t.jobs[id].status != Completed;
      var swept := Only(s.t.jobs, s.scans[e.scan]);
      SumZero(swept, LiveIn(s.t.jobs[id].queue));
      assert Weigh(LiveIn(s.t.jobs[id].queue), swept[id]) != 0;
      assert LostNow(s, e, s.t.jobs[id].queue) != 0;
    }
    if exists queue :: LostNow(s, e, queue) != 0 {
      var queue :| LostNow(s, e, queue) != 0;
      SumZero(Only(s.t.jobs, s.scans[e.scan]), LiveIn(queue));
    }
  }

  lemma {:induction false} LostZero(run: Run, k: nat, queue: string)
    requires run.Valid() && k < |run.states|
    ensures Count(run, k, queue).lost == 0
            <==> forall m :: 0 <= m < k ==> LostNow(run.states[m], run.steps[m], queue) == 0
  {
    if k > 0 { LostZero(run, k - 1, queue); }
  }

  lemma ConservedIffZeroLost(run: Run, k: nat, queue: string, now: int)
    requires run.Valid() && k < |run.states|
    ensures Conserved(run, k, queue, now)
            <==> forall m :: 0 <= m < k ==> LostNow(run.states[m], run.steps[m], queue) == 0
  {
    Balance(run, k, queue);
    StatsPartition(run.states[k].t.jobs, queue, now);
    LostZero(run, k, queue);
  }

  /** A run conserves every queue exactly when no cleanup in it deletes a row that is not completed. */
  lemma ConservedIffNothingLost(run: Run, k: nat, now: int)
    requires run.Valid() && k < |run.states|
    ensures (forall queue :: Conserved(run, k, queue, now))
            <==> forall m :: 0 <= m < k ==> !Lossy(run.states[m], run.steps[m])
  {
    hide Conserved, Lossy;
    if forall queue :: Conserved(run, k, queue, now) {
      forall m | 0 <= m < k ensures !Lossy(run.states[m], run.steps[m]) {
        LossyLoses(run.states[m], run.steps[m]);
        if Lossy(run.states[m], run.steps[m]) {
          var queue :| LostNow(run.states[m], run.steps[m], queue) != 0;
          ConservedIffZeroLost(run, k, queue, now);
        }
      }
    }
    if forall m :: 0 <= m < k ==> !Lossy(run.states[m], run.steps[m]) {
      forall queue ensures Conserved(run, k, queue, now) {
        forall m | 0 <= m < k ensures LostNow(run.states[m], run.steps[m], queue) == 0 {
          LossyLoses(run.states[m], run.steps[m]);
        }
        ConservedIffZeroLost(run, k, queue, now);
      }
    }
  }

  // ----------------------------------------------------- when cleanups do not overlap

  /** No two cleanups in flight scanned the same id; in particular when there is at most one. */
  ghost predicate DisjointScans(s: System) {
    forall a, b :: a in s.scans && b in s.scans && a != b ==> s.scans[a] !! s.scans[b]
  }

  /** Every scanned id still names a completed row. */
  ghost predicate ScansCurrent(s: System) {
    forall scan, id :: scan in s.scans && id in s.scans[scan] ==> id in s.t.jobs && s.t.jobs[id].status == Completed
  }

  lemma CompletedStays(s: System, e: Step, id: JobId)
    requires Inv(s) && Enabled(s, e) && id in s.t.jobs && s.t.jobs[id].status == Completed
    requires e.Sweep? ==> id !in s.scans[e.scan]
    ensures id in Apply(s, e).t.jobs && Apply(s, e).t.jobs[id].status == Completed
  {}

  lemma StepKeepsScansCurrent(s: System, e: Step)
    requires Inv(s) && Enabled(s, e) && DisjointScans(s) && ScansCurrent(s)
    ensures ScansCurrent(Apply(s, e))
  {
    var s' := Apply(s, e);
    forall scan, id | scan in s'.scans && id in s'.scans[scan]
      ensures id in s'.t.jobs && s'.t.jobs[id].status == Completed
    {
      if scan in s.scans && s.scans[scan] == s'.scans[scan] { CompletedStays(s, e, id); }
    }
  }

  lemma {:induction false} RunKeepsScansCurrent(run: Run, k: nat)
    requires run.Valid() && k < |run.states|
    requires forall m :: 0 <= m < k ==> DisjointScans(run.states[m])
    ensures ScansCurrent(run.states[k])
  {
    if k > 0 {
      RunKeepsScansCurrent(run, k - 1);
      ReachableInv(run, k - 1);
      assert run.Follows(k - 1);
      StepKeepsScansCurrent(run.states[k - 1], run.steps[k - 1]);
    }
  }

  /** Conservation over every run in which no two cleanups in flight share a scanned id. */
  lemma ConservedWithoutOverlap(run: Run, k: nat, queue: string, now: int)
    requires run.Valid() && k < |run.states|
    requires forall m :: 0 <= m < k ==> DisjointScans(run.states[m])
    ensures Conserved(run, k, queue, now)
  {
    forall m | 0 <= m < k ensures !Lossy(run.states[m], run.steps[m]) {
      RunKeepsScansCurrent(run, m);
    }
    ConservedIffNothingLost(run, k, now);
  }

  lemma TwoScansCount(s: System, a: nat, b: nat)
    requires a in s.scans && b in s.scans && a != b
    ensures 2 <= |s.scans|
  {
    assert {a, b} <= s.scans.Keys;
    assert |s.scans.Keys - {a, b}| == |s.scans.Keys| - |{a, b}|;
    assert |s.scans.Keys| == |s.scans|;
  }

  lemma OneScanIsDisjoint(s: System)
    requires |s.scans| <= 1
    ensures DisjointScans(s)
  {
    if a, b :| a in s.scans && b in s.scans && a != b { TwoScansCount(s, a, b); }
  }

  /** The usual case: at most one cleanup between its scan and its delete. */
  lemma ConservedWithOneCleanup(run: Run, k: nat, queue: string, now: int)
    requires run.Valid() && k < |run.states|
    requires forall m :: 0 <= m < k ==> |run.states[m].scans| <= 1
    ensures Conserved(run, k, queue, now)
  {
    forall m | 0 <= m < k ensures DisjointScans(run.states[m]) { OneScanIsDisjoint(run.states[m]); }
    ConservedWithoutOverlap(run, k, queue, now);
  }
}
