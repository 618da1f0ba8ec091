/** Timed lease safety: a worker whose heartbeats keep time is never overtaken. */
module QueueLease {
  import opened Prelude
  import opened QueueTables
  import opened QueueSystem
  import opened QueueInvariant
  import opened QueueFencing
  import opened QueueRetries

  /** The heartbeat interval is a third of the reservation, to the nanosecond below, but never under a second. */
  lemma IntervalIsAThird(reservation: int)
    requires 0 < reservation
    ensures 3 * SECOND <= reservation ==>
              3 * HeartbeatInterval(reservation) <= reservation < 3 * (HeartbeatInterval(reservation) + 1)
    ensures reservation <= 3 * SECOND ==> HeartbeatInterval(reservation) == SECOND
  {}

  /** The heartbeat interval is shorter than the reservation exactly when the reservation is longer than
      a second, and from three seconds on it leaves two thirds of it. */
  lemma IntervalBelowReservation(reservation: int)
    requires 0 < reservation
    ensures HeartbeatInterval(reservation) < reservation <==> SECOND < reservation
    ensures 3 * SECOND <= reservation ==> 2 * reservation <= 3 * (reservation - HeartbeatInterval(reservation))
    ensures SECOND <= HeartbeatInterval(reservation)
  {}

  /** The reservation at step i issued the token for this row. */
  ghost predicate Reserved(run: Run, i: nat, id: JobId, token: Token)
    requires i < |run.steps|
  {
    var e := run.steps[i];
    e.Reserve? && e.choice == Some(id) && e.token == token
  }

  /** A heartbeat under the token with a reading of at least this instant committed between i and k. */
  ghost predicate BeatSince(run: Run, i: nat, k: nat, token: Token, instant: int)
    requires k <= |run.steps|
  {
    exists m :: i < m < k && IsBeat(run.steps[m], token, instant)
  }

  ghost predicate IsBeat(e: Step, token: Token, instant: int) {
    e.Heartbeat? && e.token == token && instant <= e.now
  }

  /** The ticker started at `start`; its n-th beat, due n intervals later, reads the clock no earlier
      than that and has committed once the clock is more than `lateness` past it. */
  ghost predicate Timely(run: Run, i: nat, k: nat, token: Token, start: int, interval: int, lateness: int)
    requires k <= |run.steps| && |run.states| == |run.steps| + 1
  {
    forall n: nat {:trigger Due(start, interval, n)} ::
      1 <= n && Due(start, interval, n) + lateness < run.states[k].clock ==>
        BeatSince(run, i, k, token, Due(start, interval, n))
  }

  function Due(start: int, interval: int, n: nat): int { start + n * interval }

  /** Steps that end the worker's lease by its own hand, or by a cleanup whose scan is stale. */
  ghost predicate Ends(s: System, e: Step, id: JobId, token: Token) {
    Finishes(s, e, token) || (e.Sweep? && e.scan in s.scans && id in s.scans[e.scan])
  }

  /** The lease stands and runs at least until the reading of its latest renewal plus the reservation. */
  ghost predicate LeaseCovers(s: System, id: JobId, token: Token, reading: int, reservation: int) {
    && Fenced(s.t, id, token) && s.t.jobs[id].leasedUntil.Some?
    && reading + reservation <= s.t.jobs[id].leasedUntil.value
    && token in s.held && s.held[token].reservation == reservation && s.held[token].id == id
    && s.t.jobs[id].leasedUntil.value <= s.held[token].beat + reservation
  }

  lemma ReservationCovers(s: System, e: Step, id: JobId)
    requires Inv(s) && Enabled(s, e) && e.Reserve? && e.choice == Some(id)
    ensures LeaseCovers(Apply(s, e), id, e.token, e.now, e.reservation)
  {}

  lemma CoverStays(s: System, e: Step, id: JobId, token: Token, reading: int, reservation: int)
    requires Inv(s) && Enabled(s, e) && LeaseCovers(s, id, token, reading, reservation)
    requires s.clock < s.t.jobs[id].leasedUntil.value
    requires !Ends(s, e, id, token)
    ensures LeaseCovers(Apply(s, e), id, token, reading, reservation)
  {
    assert Coherent(s, id);
    LeasedRowStays(s, e, id, token);
    if ActsOn(s, e, id) {
      hide RetryDelay;
    } else {
      UntouchedRow(s, e, id);
      StepRemembers(s, e);
      hide Apply, Enabled;
    }
  }

  lemma LeasedRowStays(s: System, e: Step, id: JobId, token: Token)
    requires Inv(s) && Enabled(s, e) && Fenced(s.t, id, token) && !Ends(s, e, id, token)
    ensures id in Apply(s, e).t.jobs
  {
    hide RetryDelay, InsertLocks, ClearExpired, DispatchLocks;
    assert Coherent(s, id);
  }

  lemma BeatCovers(s: System, e: Step, id: JobId, token: Token, reading: int, reservation: int)
    requires Inv(s) && Enabled(s, e) && LeaseCovers(s, id, token, reading, reservation)
    requires e.Heartbeat? && e.token == token
    ensures LeaseCovers(Apply(s, e), id, token, e.now, reservation)
  {}

  /** Every renewal so far, the reservation included, is covered by the current deadline. */
  ghost predicate AllCovered(run: Run, i: nat, k: nat, id: JobId, token: Token, reservation: int)
    requires i < k <= |run.steps| && |run.states| == |run.steps| + 1 && run.steps[i].Reserve?
  {
    && LeaseCovers(run.states[k], id, token, run.steps[i].now, reservation)
    && forall m :: i < m < k && run.steps[m].Heartbeat? && run.steps[m].token == token ==>
         LeaseCovers(run.states[k], id, token, run.steps[m].now, reservation)
  }

  lemma NextCovered(run: Run, i: nat, k: nat, id: JobId, token: Token, reservation: int)
    requires run.Valid() && i < k < |run.steps| && run.steps[i].Reserve?
    requires AllCovered(run, i, k, id, token, reservation)
    requires run.states[k].t.jobs[id].leasedUntil.Some?
    requires run.states[k].clock < run.states[k].t.jobs[id].leasedUntil.value
    requires !Ends(run.states[k], run.steps[k], id, token)
    ensures AllCovered(run, i, k + 1, id, token, reservation)
  {
    hide LeaseCovers;
    ReachableInv(run, k);
    assert run.Follows(k);
    CoverStays(run.states[k], run.steps[k], id, token, run.steps[i].now, reservation);
    forall m | i < m < k + 1 && run.steps[m].Heartbeat? && run.steps[m].token == token
      ensures LeaseCovers(run.states[k + 1], id, token, run.steps[m].now, reservation)
    {
      if m == k {
        BeatCovers(run.states[k], run.steps[k], id, token, run.steps[i].now, reservation);
      } else {
        CoverStays(run.states[k], run.steps[k], id, token, run.steps[m].now, reservation);
      }
    }
  }

  /** The last due beat that must have committed by the given clock, if any. */
  lemma LastDueBeat(start: int, interval: int, lateness: int, clock: int) returns (n: nat)
    requires 0 < interval
    ensures 1 <= n ==> Due(start, interval, n) + lateness < clock
    ensures clock <= start + (n + 1) * interval + lateness
  {
    if clock <= start + interval + lateness {
      n := 0;
    } else {
      n := (clock - start - lateness - 1) / interval;
      assert n * interval <= clock - start - lateness - 1 < (n + 1) * interval;
    }
  }

  lemma DeadlineAhead(run: Run, i: nat, k: nat, id: JobId, token: Token, start: int, lateness: int)
    requires i < k <= |run.steps| && |run.states| == |run.steps| + 1 && run.steps[i].Reserve?
    requires AllCovered(run, i, k, id, token, run.steps[i].reservation)
    requires 0 < run.steps[i].reservation
    requires var interval := HeartbeatInterval(run.steps[i].reservation);
             && Timely(run, i, k, token, start, interval, lateness)
             && (start - run.steps[i].now) + interval + lateness < run.steps[i].reservation
             && interval + lateness < run.steps[i].reservation
    ensures run.states[k].clock < run.states[k].t.jobs[id].leasedUntil.value
  {
    var reservation := run.steps[i].reservation;
    var interval := HeartbeatInterval(reservation);
    IntervalBelowReservation(reservation);
    hide HeartbeatInterval;
    var n := LastDueBeat(start, interval, lateness, run.states[k].clock);
    if 1 <= n {
      assert BeatSince(run, i, k, token, Due(start, interval, n));
      var m :| i < m < k && IsBeat(run.steps[m], token, Due(start, interval, n));
      assert LeaseCovers(run.states[k], id, token, run.steps[m].now, reservation);
      assert (n + 1) * interval == n * interval + interval;
    }
  }

  lemma {:induction false} CoveredThroughout(run: Run, i: nat, k: nat, id: JobId, token: Token, start: int,
                                             lateness: int)
    requires run.Valid() && i < k < |run.states|
    requires Reserved(run, i, id, token)
    requires var interval := HeartbeatInterval(run.steps[i].reservation);
             && (forall m :: i < m <= k ==> Timely(run, i, m, token, start, interval, lateness))
             && (start - run.steps[i].now) + interval + lateness < run.steps[i].reservation
             && interval + lateness < run.steps[i].reservation
    requires forall m :: i < m < k ==> !Ends(run.states[m], run.steps[m], id, token)
    ensures AllCovered(run, i, k, id, token, run.steps[i].reservation)
    ensures run.states[k].clock < run.states[k].t.jobs[id].leasedUntil.value
    decreases k
  {
    hide LeaseCovers, Timely, HeartbeatInterval;
    ReachableInv(run, i);
    assert run.Follows(i);
    if k == i + 1 {
      ReservationCovers(run.states[i], run.steps[i], id);
    } else {
      CoveredThroughout(run, i, k - 1, id, token, start, lateness);
      CoverIsLease(run.states[k - 1], id, token, run.steps[i].now, run.steps[i].reservation);
      NextCovered(run, i, k - 1, id, token, run.steps[i].reservation);
    }
    DeadlineAhead(run, i, k, id, token, start, lateness);
  }

  lemma CoverIsLease(s: System, id: JobId, token: Token, reading: int, reservation: int)
    requires LeaseCovers(s, id, token, reading, reservation)
    ensures Fenced(s.t, id, token) && s.t.jobs[id].leasedUntil.Some?
  {}

  lemma RunningLeaseIsNotTaken(s: System, e: Step, id: JobId)
    requires Enabled(s, e) && id in s.t.jobs && s.t.jobs[id].leasedUntil.Some?
    requires s.clock < s.t.jobs[id].leasedUntil.value
    ensures !TakesOver(s, e, id)
  {}

  /** If the start-up delay of the ticker, one heartbeat interval and the lateness of a beat together stay
      below the reservation, then from its reservation on, until it finishes the job itself or a stale
      cleanup removes the row, the worker keeps the lease: its deadline is ahead of the clock and no
      reserve step takes the job over. */
  lemma TimelyWorkerIsNotOvertaken(run: Run, i: nat, k: nat, id: JobId, token: Token, start: int, lateness: int)
    requires run.Valid() && i < k < |run.steps|
    requires Reserved(run, i, id, token)
    requires 0 <= lateness && run.steps[i].now <= start
    requires var interval := HeartbeatInterval(run.steps[i].reservation);
             && (forall m :: i < m <= k ==> Timely(run, i, m, token, start, interval, lateness))
             && (start - run.steps[i].now) + interval + lateness < run.steps[i].reservation
    requires forall m :: i < m < k ==> !Ends(run.states[m], run.steps[m], id, token)
    ensures Fenced(run.states[k].t, id, token)
    ensures !TakesOver(run.states[k], run.steps[k], id)
  {
    hide Timely, HeartbeatInterval;
    CoveredThroughout(run, i, k, id, token, start, lateness);
    CoverIsLease(run.states[k], id, token, run.steps[i].now, run.steps[i].reservation);
    assert run.Follows(k);
    RunningLeaseIsNotTaken(run.states[k], run.steps[k], id);
  }
}
