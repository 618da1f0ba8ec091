/** Two overlapping cleanups can delete a fresh job: a run that is not conserved. */
module QueueOverlap {
  import opened Prelude
  import opened QueueTables
  import opened QueueSystem
  import opened QueueConservation
  import opened QueueScenarios

  const ONCE: Options := Options("", None, 0, 0, 0, SECOND, "job")

  /** Scanned by two cleanups; swept by one and dispatched again. */
  lemma BeforeSecondSweep() returns (run: Run)
    ensures run.Valid()
    ensures run.states[|run.steps|].t == TablesWith(ONCE, Row(ONCE, SECOND), map["default" := 1])
    ensures run.states[|run.steps|].scans == map[1 := {"job"}]
  {
    assert Expiry(ONCE, 0) == SECOND;
    run := LiveAndExpire(ONCE, 0);
    hide Life;
    ScanIt(run.states[5].t, ONCE, 0);
    run := Grow(run, Scan(0, SECOND, {"job"}));
    run := Grow(run, Scan(1, SECOND, {"job"}));
    SweepIt(run.states[7].t, ONCE);
    run := Grow(run, Sweep(0));
    DispatchInto(run.states[8].t, ONCE, SECOND);
    run := Grow(run, DispatchAt(ONCE, SECOND));
  }

  /** So conservation does not hold of every run: the second cleanup deletes the pending job. */
  lemma OverlapLosesPendingJob() returns (run: Run)
    ensures run.Valid()
    ensures exists queue :: !Conserved(run, |run.steps|, queue, SECOND)
    ensures run.states[|run.steps|].t.jobs == map[]
  {
    run := BeforeSecondSweep();
    var s, k := run.states[|run.steps|], |run.steps|;
    SweepIt(s.t, ONCE);
    assert s.t.jobs["job"].status == Pending;
    assert Lossy(s, Sweep(1));
    run := Grow(run, Sweep(1));
    ConservedIffNothingLost(run, |run.steps|, SECOND);
    assert Lossy(run.states[k], run.steps[k]);
  }
}
