/** Sums over the job table: SELECT SUM(CASE WHEN ... THEN ... END) as a function. */
module QueueTally {
  import opened Prelude
  import opened QueueTables

  /** What a row contributes to a sum. */
  datatype Tally =
    | PendingIn(queue: string, now: int)
    | ScheduledIn(queue: string, now: int)
    | ActiveIn(queue: string)
    | RetryIn(queue: string)
    | FailedIn(queue: string)
    | LiveIn(queue: string)
    | RetryBudget

  function One(b: bool): nat { if b then 1 else 0 }

  function Weigh(w: Tally, job: Job): nat {
    match w
    case PendingIn(queue, now) => One(job.queue == queue && job.status == Pending && job.availableAt <= now)
    case ScheduledIn(queue, now) => One(job.queue == queue && job.status == Pending && now < job.availableAt)
    case ActiveIn(queue) => One(job.queue == queue && job.status == Active)
    case RetryIn(queue) => One(job.queue == queue && job.status == Retry)
    case FailedIn(queue) => One(job.queue == queue && job.status == Failed)
    case LiveIn(queue) => One(job.queue == queue && job.status != Completed)
    case RetryBudget =>
      if job.status == Completed || job.status == Failed then 0 else Max(0, job.maxRetry + 1 - job.attempts)
  }

  ghost function AnyRow(jobs: map<JobId, Job>): (id: JobId)
    requires |jobs| != 0
    ensures id in jobs
  {
    var id :| id in jobs; id
  }

  ghost function Sum(jobs: map<JobId, Job>, w: Tally): nat
    decreases |jobs|
  {
    if |jobs| == 0 then 0
    else
      var id := AnyRow(jobs);
      Smaller(jobs, id);
      Weigh(w, jobs[id]) + Sum(jobs - {id}, w)
  }

  lemma Smaller(jobs: map<JobId, Job>, id: JobId)
    requires id in jobs
    ensures |jobs - {id}| == |jobs| - 1
  {
    assert (jobs - {id}).Keys == jobs.Keys - {id};
    assert |jobs.Keys| == |jobs| && |(jobs - {id}).Keys| == |jobs - {id}|;
  }

  lemma SumFirst(jobs: map<JobId, Job>, w: Tally)
    requires |jobs| != 0
    ensures Sum(jobs, w) == Weigh(w, jobs[AnyRow(jobs)]) + Sum(jobs - {AnyRow(jobs)}, w)
  {}

  /** Any row may be counted first. */
  lemma {:induction false} SumPick(jobs: map<JobId, Job>, w: Tally, id: JobId)
    requires id in jobs
    ensures Sum(jobs, w) == Weigh(w, jobs[id]) + Sum(jobs - {id}, w)
    decreases |jobs|
  {
    hide Weigh, Sum;
    Smaller(jobs, id);
    var first := AnyRow(jobs);
    SumFirst(jobs, w);
    if first != id {
      Smaller(jobs, first);
      SumPick(jobs - {first}, w, id);
      SumPick(jobs - {id}, w, first);
      assert jobs - {first} - {id} == jobs - {id} - {first};
    }
  }

  lemma SumPut(jobs: map<JobId, Job>, w: Tally, id: JobId, job: Job)
    ensures Sum(jobs[id := job], w) + (if id in jobs then Weigh(w, jobs[id]) else 0) == Sum(jobs, w) + Weigh(w, job)
  {
    SumPick(jobs[id := job], w, id);
    if id in jobs {
      SumPick(jobs, w, id);
      assert jobs[id := job] - {id} == jobs - {id};
    } else {
      assert jobs[id := job] - {id} == jobs;
    }
  }

  function Only(jobs: map<JobId, Job>, ids: set<JobId>): map<JobId, Job> {
    map id | id in jobs && id in ids :: jobs[id]
  }

  lemma SumEmpty(w: Tally)
    ensures Sum(map[], w) == 0
  {}

  lemma {:induction false} SumSplit(jobs: map<JobId, Job>, w: Tally, ids: set<JobId>)
    ensures Sum(jobs, w) == Sum(jobs - ids, w) + Sum(Only(jobs, ids), w)
    decreases |jobs|
  {
    hide Weigh, Sum;
    if |jobs| == 0 {
      SumEmpty(w);
      assert jobs == map[] && jobs - ids == map[] && Only(jobs, ids) == map[];
    } else {
      var id :| id in jobs;
      var rest, kept, cut := jobs - {id}, jobs - ids, Only(jobs, ids);
      Smaller(jobs, id);
      SumPick(jobs, w, id);
      SumSplit(rest, w, ids);
      if id in ids {
        SumPick(cut, w, id);
        assert cut - {id} == Only(rest, ids) && rest - ids == kept;
      } else {
        SumPick(kept, w, id);
        assert kept - {id} == rest - ids && Only(rest, ids) == cut;
      }
    }
  }

  /** Two tables whose rows weigh the same sum to the same. */
  lemma {:induction false} SumAgree(a: map<JobId, Job>, b: map<JobId, Job>, w: Tally)
    requires a.Keys == b.Keys
    requires forall id :: id in a ==> Weigh(w, a[id]) == Weigh(w, b[id])
    ensures Sum(a, w) == Sum(b, w)
    decreases |a|
  {
    assert |a.Keys| == |a| && |b.Keys| == |b|;
    if |a| != 0 {
      var id :| id in a;
      Smaller(a, id);
      SumPick(a, w, id);
      SumPick(b, w, id);
      SumAgree(a - {id}, b - {id}, w);
    }
  }

  /** A sum is zero exactly when every row weighs nothing. */
  lemma {:induction false} SumZero(jobs: map<JobId, Job>, w: Tally)
    ensures Sum(jobs, w) == 0 <==> forall id :: id in jobs ==> Weigh(w, jobs[id]) == 0
    decreases |jobs|
  {
    if |jobs| == 0 {
      assert jobs == map[];
    } else {
      var first :| first in jobs;
      Smaller(jobs, first);
      SumPick(jobs, w, first);
      SumZero(jobs - {first}, w);
      if Sum(jobs, w) == 0 {
        forall id | id in jobs ensures Weigh(w, jobs[id]) == 0 {
          if id != first { assert id in jobs - {first}; }
        }
      }
    }
  }

  /** The counters the inspector reports. */
  datatype QueueStats = QueueStats(pending: nat, active: nat, scheduled: nat, retry: nat, failed: nat, processed: nat)

  ghost function Stats(t: Tables, queue: string, now: int): QueueStats {
    QueueStats(Sum(t.jobs, PendingIn(queue, now)), Sum(t.jobs, ActiveIn(queue)), Sum(t.jobs, ScheduledIn(queue, now)),
               Sum(t.jobs, RetryIn(queue)), Sum(t.jobs, FailedIn(queue)), Processed(t, queue))
  }

  lemma SumNothing(jobs: map<JobId, Job>)
    requires |jobs| == 0
    ensures forall w :: Sum(jobs, w) == 0
  {}

  lemma WeighPartition(job: Job, queue: string, now: int)
    ensures Weigh(PendingIn(queue, now), job) + Weigh(ActiveIn(queue), job) + Weigh(ScheduledIn(queue, now), job)
            + Weigh(RetryIn(queue), job) + Weigh(FailedIn(queue), job) == Weigh(LiveIn(queue), job)
  {}

  /** The five status counters partition the rows that are not completed, at whatever reading. */
  lemma {:induction false} StatsPartition(jobs: map<JobId, Job>, queue: string, now: int)
    ensures Sum(jobs, PendingIn(queue, now)) + Sum(jobs, ActiveIn(queue)) + Sum(jobs, ScheduledIn(queue, now))
            + Sum(jobs, RetryIn(queue)) + Sum(jobs, FailedIn(queue)) == Sum(jobs, LiveIn(queue))
    decreases |jobs|
  {
    if |jobs| == 0 {
      SumNothing(jobs);
    } else {
      hide Sum, Weigh;
      var id :| id in jobs;
      Smaller(jobs, id);
      WeighPartition(jobs[id], queue, now);
      SumPick(jobs, PendingIn(queue, now), id);
      SumPick(jobs, ActiveIn(queue), id);
      SumPick(jobs, ScheduledIn(queue, now), id);
      SumPick(jobs, RetryIn(queue), id);
      SumPick(jobs, FailedIn(queue), id);
      SumPick(jobs, LiveIn(queue), id);
      StatsPartition(jobs - {id}, queue, now);
    }
  }

  /** A column of zeros and ones counts the rows that weigh one. */
  lemma {:induction false} SumCounts(jobs: map<JobId, Job>, w: Tally, ids: set<JobId>)
    requires forall id :: id in jobs ==> Weigh(w, jobs[id]) == One(id in ids)
    requires ids <= jobs.Keys
    ensures Sum(jobs, w) == |ids|
    decreases |jobs|
  {
    hide Weigh, Sum;
    if |jobs| == 0 {
      SumNothing(jobs);
      assert jobs == map[] && ids == {};
    } else {
      var first :| first in jobs;
      Smaller(jobs, first);
      SumPick(jobs, w, first);
      SumCounts(jobs - {first}, w, ids - {first});
      if first !in ids { assert ids - {first} == ids; }
    }
  }

  /** The rows of a queue in a status. */
  function RowsIn(jobs: map<JobId, Job>, queue: string, status: Status): set<JobId> {
    set id | id in jobs && jobs[id].queue == queue && jobs[id].status == status
  }

  /** The rows of a queue that are pending and whose start has come. */
  function Startable(jobs: map<JobId, Job>, queue: string, now: int): set<JobId> {
    set id | id in jobs && jobs[id].queue == queue && jobs[id].status == Pending && jobs[id].availableAt <= now
  }

  lemma StatusColumns(jobs: map<JobId, Job>, queue: string)
    ensures Sum(jobs, ActiveIn(queue)) == |RowsIn(jobs, queue, Active)|
    ensures Sum(jobs, RetryIn(queue)) == |RowsIn(jobs, queue, Retry)|
    ensures Sum(jobs, FailedIn(queue)) == |RowsIn(jobs, queue, Failed)|
  {
    hide Sum;
    SumCounts(jobs, ActiveIn(queue), RowsIn(jobs, queue, Active));
    SumCounts(jobs, RetryIn(queue), RowsIn(jobs, queue, Retry));
    SumCounts(jobs, FailedIn(queue), RowsIn(jobs, queue, Failed));
  }

  lemma PendingColumns(jobs: map<JobId, Job>, queue: string, now: int)
    ensures Sum(jobs, PendingIn(queue, now)) == |Startable(jobs, queue, now)|
    ensures Sum(jobs, ScheduledIn(queue, now)) == |RowsIn(jobs, queue, Pending) - Startable(jobs, queue, now)|
  {
    hide Sum;
    SumCounts(jobs, PendingIn(queue, now), Startable(jobs, queue, now));
    SumCounts(jobs, ScheduledIn(queue, now), RowsIn(jobs, queue, Pending) - Startable(jobs, queue, now));
  }

  /** What an operator reads off the inspector, in terms of the rows: each counter is the number of the
      queue's rows in its status, pending ones split by whether their start has come. */
  lemma StatsAreCounts(t: Tables, queue: string, now: int)
    ensures var stats := Stats(t, queue, now);
            && stats.active == |RowsIn(t.jobs, queue, Active)|
            && stats.retry == |RowsIn(t.jobs, queue, Retry)|
            && stats.failed == |RowsIn(t.jobs, queue, Failed)|
            && stats.pending == |Startable(t.jobs, queue, now)|
            && stats.scheduled == |RowsIn(t.jobs, queue, Pending) - Startable(t.jobs, queue, now)|
            && stats.processed == (if queue in t.stats then t.stats[queue] else 0)
  {
    hide Sum, RowsIn, Startable;
    StatusColumns(t.jobs, queue);
    PendingColumns(t.jobs, queue, now);
  }
}
