/** Task-ID locks and uniqueness locks: what a dispatch may meet in the lock table. */
module QueueLocks {
  import opened Prelude
  import opened QueueTables
  import opened QueueSystem
  import opened QueueInvariant

  /** The dispatch step inserts its job. */
  ghost predicate Accepted(s: System, e: Step) {
    e.Dispatch? && Accepts(s.t, e.id, e.message, e.options, e.at)
  }

  /** Step m of the run inserts a job under this id. */
  ghost predicate AcceptsId(run: Run, m: nat, id: JobId)
    requires m < |run.steps| && |run.states| == |run.steps| + 1
  {
    Accepted(run.states[m], run.steps[m]) && run.steps[m].id == id
  }

  lemma AcceptedIsDispatch(s: System, e: Step)
    requires Accepted(s, e)
    ensures e.Dispatch?
  {}

  // ------------------------------------------------ effect of a dispatch on locks

  /** The lock a dispatch must find absent or expired. */
  predicate Expired(locks: map<LockKey, Lock>, key: LockKey, now: int) {
    key in locks ==> locks[key].expiresAt.Some? && locks[key].expiresAt.value <= now
  }

  lemma ClearedLocks(locks: map<LockKey, Lock>, id: JobId, message: Message, options: Options, from: int, now: int)
    ensures var rows, unique := DispatchLocks(id, message, options, from), UniqueKey(message, options);
            ClearExpired(locks, rows, |rows|, now)
            == if options.uniqueFor > 0 && Expired(locks, unique, now) then locks - {unique} else locks
  {
    var rows, unique := DispatchLocks(id, message, options, from), UniqueKey(message, options);
    if options.taskId != "" && options.uniqueFor > 0 { assert ClearExpired(locks, rows, 1, now) == locks; }
    if unique !in locks { assert locks - {unique} == locks; }
  }

  lemma InsertedLocks(locks: map<LockKey, Lock>, id: JobId, message: Message, options: Options, from: int)
    ensures var rows := DispatchLocks(id, message, options, from);
            var withTask := if options.taskId != "" then locks[TaskKey(options.taskId) := Lock(id, None)] else locks;
            InsertLocks(locks, rows, |rows|)
            == if options.uniqueFor > 0
               then withTask[UniqueKey(message, options) := Lock(id, Some(from + options.uniqueFor))]
               else withTask
  {
    var rows := DispatchLocks(id, message, options, from);
    if options.taskId != "" && options.uniqueFor > 0 {
      assert InsertLocks(locks, rows, 1) == locks[rows[0].key := rows[0].lock];
    }
  }

  /** The guard of the dispatch transaction in terms of the tables alone. */
  lemma AcceptsMeaning(t: Tables, id: JobId, message: Message, options: Options, at: Readings)
    ensures Accepts(t, id, message, options, at) <==>
              && id !in t.jobs
              && (options.taskId != "" ==> TaskKey(options.taskId) !in t.locks)
              && (options.uniqueFor > 0 ==> Expired(t.locks, UniqueKey(message, options), at.transaction))
  {
    var rows := DispatchLocks(id, message, options, at.locks);
    ClearedLocks(t.locks, id, message, options, at.locks, at.transaction);
    var cleared := ClearExpired(t.locks, rows, |rows|, at.transaction);
    if options.taskId != "" { assert rows[0].key == TaskKey(options.taskId); }
    if options.uniqueFor > 0 { assert rows[|rows| - 1].key == UniqueKey(message, options); }
  }

  /** What a dispatch leaves under every key. */
  lemma LocksAfterDispatch(t: Tables, id: JobId, message: Message, options: Options, at: Readings, key: LockKey)
    requires Accepts(t, id, message, options, at)
    ensures var locks := DispatchTx(t, id, message, options, at).locks;
            if options.taskId != "" && key == TaskKey(options.taskId) then key in locks && locks[key] == Lock(id, None)
            else if options.uniqueFor > 0 && key == UniqueKey(message, options) then
              key in locks && locks[key] == Lock(id, Some(at.locks + options.uniqueFor))
            else (key in locks <==> key in t.locks) && (key in locks ==> locks[key] == t.locks[key])
  {
    var rows := DispatchLocks(id, message, options, at.locks);
    ClearedLocks(t.locks, id, message, options, at.locks, at.transaction);
    InsertedLocks(ClearExpired(t.locks, rows, |rows|, at.transaction), id, message, options, at.locks);
  }

  // ------------------------------------------------------------ task-lock pairing

  /** Follow the set of live jobs that were dispatched under a task ID through a step. */
  function NextTasks(s: System, e: Step, tasks: set<JobId>): set<JobId> {
    var born := if e.Dispatch? && Accepts(s.t, e.id, e.message, e.options, e.at) && e.options.taskId != ""
                then {e.id} else {};
    (tasks + born) * Apply(s, e).t.jobs.Keys
  }

  /** The live jobs after k steps that were dispatched under a task ID. */
  function TaskJobs(run: Run, k: nat): set<JobId>
    requires k <= |run.steps| && |run.states| == |run.steps| + 1
  {
    if k == 0 then {} else NextTasks(run.states[k - 1], run.steps[k - 1], TaskJobs(run, k - 1))
  }

  /** Non-expiring locks and task-ID jobs correspond one to one; expiring locks are uniqueness locks. */
  ghost predicate Paired(t: Tables, tasks: set<JobId>) {
    && tasks <= t.jobs.Keys
    && (forall key :: key in t.locks && t.locks[key].expiresAt.None? ==>
          key == TaskKey(t.locks[key].jobId) && t.locks[key].jobId in tasks)
    && (forall id :: id in tasks ==> TaskKey(id) in t.locks && t.locks[TaskKey(id)] == Lock(id, None))
    && (forall key :: key in t.locks && t.locks[key].expiresAt.Some? ==> key.prefix == "unique")
  }

  lemma DispatchKeepsPairing(t: Tables, e: Step, tasks: set<JobId>)
    requires e.Dispatch? && Accepts(t, e.id, e.message, e.options, e.at) && Paired(t, tasks)
    requires e.options.taskId != "" ==> e.id == e.options.taskId
    ensures Paired(DispatchTx(t, e.id, e.message, e.options, e.at),
                   if e.options.taskId != "" then tasks + {e.id} else tasks)
  {
    var t' := DispatchTx(t, e.id, e.message, e.options, e.at);
    var tasks' := if e.options.taskId != "" then tasks + {e.id} else tasks;
    hide InsertLocks, ClearExpired, DispatchLocks, NewRecord;
    forall key | key in t'.locks
      ensures t'.locks[key].expiresAt.None? ==> key == TaskKey(t'.locks[key].jobId) && t'.locks[key].jobId in tasks'
      ensures t'.locks[key].expiresAt.Some? ==> key.prefix == "unique"
    {
      LocksAfterDispatch(t, e.id, e.message, e.options, e.at, key);
    }
    forall id | id in tasks' ensures TaskKey(id) in t'.locks && t'.locks[TaskKey(id)] == Lock(id, None) {
      LocksAfterDispatch(t, e.id, e.message, e.options, e.at, TaskKey(id));
    }
  }

  lemma RemovalKeepsPairing(t: Tables, t': Tables, gone: set<JobId>, tasks: set<JobId>)
    requires Paired(t, tasks)
    requires t'.jobs.Keys == t.jobs.Keys - gone
    requires t'.locks == DropOwnedLocks(t.locks, gone) || t'.locks == DropJobLocks(t.locks, gone)
    ensures Paired(t', tasks - gone)
  {
    forall id | id in tasks - gone ensures TaskKey(id) in t'.locks && t'.locks[TaskKey(id)] == Lock(id, None) {
      assert t.locks[TaskKey(id)] == Lock(id, None);
    }
  }

  lemma StepKeepsPairing(s: System, e: Step, tasks: set<JobId>)
    requires Enabled(s, e) && Paired(s.t, tasks)
    ensures Paired(Apply(s, e).t, NextTasks(s, e, tasks))
  {
    var t' := Apply(s, e).t;
    match e
    case Dispatch(id, message, options, at) =>
      if Accepts(s.t, id, message, options, at) {
        DispatchKeepsPairing(s.t, e, tasks);
        assert NextTasks(s, e, tasks) == if options.taskId != "" then tasks + {id} else tasks;
      } else {
        assert NextTasks(s, e, tasks) == tasks;
      }
    case Complete(token, _) =>
      if s.held[token].row.retentionSecs <= 0 && Fenced(s.t, s.held[token].id, token) {
        RemovalKeepsPairing(s.t, t', {s.held[token].id}, tasks);
        assert NextTasks(s, e, tasks) == tasks - {s.held[token].id};
      } else {
        assert t'.jobs.Keys == s.t.jobs.Keys;
        assert NextTasks(s, e, tasks) == tasks;
      }
    case Sweep(scan) =>
      RemovalKeepsPairing(s.t, t', s.scans[scan], tasks);
      assert NextTasks(s, e, tasks) == tasks - s.scans[scan];
    case OperatorDelete(queue, target) =>
      RemovalKeepsPairing(s.t, t', SelectedIds(s.t.jobs, queue, target), tasks);
      assert NextTasks(s, e, tasks) == tasks - SelectedIds(s.t.jobs, queue, target);
    case _ =>
      assert t'.jobs.Keys == s.t.jobs.Keys;
      assert NextTasks(s, e, tasks) == tasks;
  }

  /** In every reachable state, overlapping cleanups included, a non-expiring lock stands exactly for
      a task-ID job that still exists. */
  lemma {:induction false} TaskLocksPaired(run: Run, k: nat)
    requires run.Valid() && k < |run.states|
    ensures Paired(run.states[k].t, TaskJobs(run, k))
  {
    if k > 0 {
      TaskLocksPaired(run, k - 1);
      assert run.Follows(k - 1);
      StepKeepsPairing(run.states[k - 1], run.steps[k - 1], TaskJobs(run, k - 1));
    }
  }

  /** The dispatch finds no row under its id and, if it wants uniqueness, no live uniqueness lock. */
  ghost predicate Free(t: Tables, e: Step)
    requires e.Dispatch?
  {
    && e.id !in t.jobs
    && (e.options.uniqueFor > 0 ==> Expired(t.locks, UniqueKey(e.message, e.options), e.at.transaction))
  }

  lemma PairedAcceptance(s: System, e: Step, tasks: set<JobId>)
    requires Paired(s.t, tasks) && e.Dispatch? && Enabled(s, e)
    ensures Accepted(s, e) <==> Free(s.t, e)
  {
    AcceptsMeaning(s.t, e.id, e.message, e.options, e.at);
  }

  /** Hence a dispatch is accepted exactly when its id names no row and its uniqueness lock, if it
      wants one, is absent or expired: the task lock never decides on its own.  A refused dispatch
      changes nothing at all. */
  lemma AcceptanceInReachableStates(run: Run, k: nat)
    requires run.Valid() && k < |run.steps| && run.steps[k].Dispatch?
    ensures Accepted(run.states[k], run.steps[k]) <==> Free(run.states[k].t, run.steps[k])
    ensures !Free(run.states[k].t, run.steps[k]) ==> run.states[k + 1] == run.states[k]
  {
    TaskLocksPaired(run, k);
    assert run.Follows(k);
    PairedAcceptance(run.states[k], run.steps[k], TaskJobs(run, k));
  }

  /** Reusing the task ID of a live job, whatever its status, is refused and changes nothing. */
  lemma LiveTaskIdIsRefused(run: Run, k: nat)
    requires run.Valid() && k < |run.steps| && run.steps[k].Dispatch?
    requires run.steps[k].options.taskId in run.states[k].t.jobs && run.steps[k].options.taskId != ""
    ensures !Accepted(run.states[k], run.steps[k])
    ensures run.states[k + 1] == run.states[k]
  {
    assert run.Follows(k);
    assert run.steps[k].id == run.steps[k].options.taskId;
    AcceptanceInReachableStates(run, k);
  }

  // ------------------------------------------------------------ uniqueness spacing

  /** An operator delete removes the job with this id. */
  ghost predicate Deletes(s: System, e: Step, id: JobId) {
    e.OperatorDelete? && Selected(s.t.jobs, e.queue, e.target, id)
  }

  lemma LiveUniqueLockStays(s: System, e: Step, key: LockKey, lock: Lock)
    requires Enabled(s, e) && key.prefix == "unique" && key in s.t.locks && s.t.locks[key] == lock
    requires lock.expiresAt.Some? && s.clock < lock.expiresAt.value
    requires !Deletes(s, e, lock.jobId)
    ensures key in Apply(s, e).t.locks && Apply(s, e).t.locks[key] == lock
  {
    if Accepted(s, e) {
      AcceptsMeaning(s.t, e.id, e.message, e.options, e.at);
      LocksAfterDispatch(s.t, e.id, e.message, e.options, e.at, key);
    }
  }

  /** The lock an accepted UniqueFor dispatch puts down. */
  function UniqueLock(e: Step): Lock
    requires e.Dispatch?
  {
    Lock(e.id, Some(e.at.locks + e.options.uniqueFor))
  }

  lemma AcceptedPutsUniqueLock(s: System, e: Step)
    requires Accepted(s, e) && e.options.uniqueFor > 0
    ensures var key := UniqueKey(e.message, e.options);
            key in Apply(s, e).t.locks && Apply(s, e).t.locks[key] == UniqueLock(e)
  {
    LocksAfterDispatch(s.t, e.id, e.message, e.options, e.at, UniqueKey(e.message, e.options));
  }

  lemma LiveUniqueLockRefuses(s: System, e: Step, lock: Lock)
    requires e.Dispatch? && Enabled(s, e) && e.options.uniqueFor > 0
    requires UniqueKey(e.message, e.options) in s.t.locks
    requires s.t.locks[UniqueKey(e.message, e.options)] == lock
    requires lock.expiresAt.Some? && s.clock < lock.expiresAt.value
    ensures !Accepted(s, e)
  {
    AcceptsMeaning(s.t, e.id, e.message, e.options, e.at);
  }

  lemma {:induction false} UniqueLockLasts(run: Run, i: nat, k: nat, key: LockKey, lock: Lock)
    requires run.Valid() && i <= k < |run.states|
    requires key.prefix == "unique" && key in run.states[i].t.locks && run.states[i].t.locks[key] == lock
    requires lock.expiresAt.Some? && run.states[k].clock < lock.expiresAt.value
    requires forall m :: i <= m < k ==> !Deletes(run.states[m], run.steps[m], lock.jobId)
    ensures key in run.states[k].t.locks && run.states[k].t.locks[key] == lock
    decreases k
  {
    if i < k {
      RunRemembers(run, k - 1, k);
      UniqueLockLasts(run, i, k - 1, key, lock);
      assert run.Follows(k - 1);
      LiveUniqueLockStays(run.states[k - 1], run.steps[k - 1], key, lock);
    }
  }

  /** Two accepted UniqueFor dispatches with the same uniqueness key are at least the first one's
      UniqueFor apart, through completion, retention and lock cleanup, unless an operator deletes the
      first job in between.  The distance runs from the reading the first one based its lock on to the
      clock at which the second is decided. */
  lemma UniqueSpacing(run: Run, i: nat, j: nat)
    requires run.Valid() && i < j < |run.steps|
    requires Accepted(run.states[i], run.steps[i]) && run.steps[i].options.uniqueFor > 0
    requires Accepted(run.states[j], run.steps[j]) && run.steps[j].options.uniqueFor > 0
    requires UniqueKey(run.steps[i].message, run.steps[i].options)
          == UniqueKey(run.steps[j].message, run.steps[j].options)
    requires forall m :: i < m < j ==> !Deletes(run.states[m], run.steps[m], run.steps[i].id)
    ensures run.steps[i].at.locks + run.steps[i].options.uniqueFor <= run.states[j].clock
  {
    if run.states[j].clock < run.steps[i].at.locks + run.steps[i].options.uniqueFor {
      assert run.Follows(i) && run.Follows(j);
      AcceptedPutsUniqueLock(run.states[i], run.steps[i]);
      UniqueLockLasts(run, i + 1, j, UniqueKey(run.steps[i].message, run.steps[i].options), UniqueLock(run.steps[i]));
      LiveUniqueLockRefuses(run.states[j], run.steps[j], UniqueLock(run.steps[i]));
    }
  }

  // ---------------------------------------------------------- uniqueness-key encoding

  lemma NulPositions(q: string, t: string, p: string)
    ensures var v := UniqueValue(q, t, p);
            && |v| == |q| + |t| + |p| + 2
            && v[|q|] == NUL && v[|q| + 1 + |t|] == NUL
            && v[..|q|] == q && v[|q| + 1..|q| + 1 + |t|] == t && v[|q| + |t| + 2..] == p
  {}

  lemma OnlyNulPositions(q: string, t: string, p: string, i: nat)
    requires i < |UniqueValue(q, t, p)|
    requires i != |q| && i != |q| + 1 + |t|
    ensures UniqueValue(q, t, p)[i] in q + t + p
  {
    var v := UniqueValue(q, t, p);
    if i < |q| {
      assert v[i] == q[i];
    } else if i < |q| + 1 + |t| {
      assert v[i] == t[i - |q| - 1];
    } else {
      assert v[i] == p[i - |q| - |t| - 2];
    }
  }

  lemma NulIsSeparator(q: string, t: string, p: string, i: nat)
    requires NUL !in q && NUL !in t && NUL !in p
    requires i < |UniqueValue(q, t, p)| && UniqueValue(q, t, p)[i] == NUL
    ensures i == |q| || i == |q| + 1 + |t|
  {
    if i != |q| && i != |q| + 1 + |t| { OnlyNulPositions(q, t, p, i); }
  }

  ghost predicate Unambiguous(q: string, t: string, p: string) {
    forall q', t', p' :: UniqueValue(q', t', p') == UniqueValue(q, t, p) ==> q' == q && t' == t && p' == p
  }

  lemma NulFreeIsUnambiguous(q: string, t: string, p: string)
    requires NUL !in q && NUL !in t && NUL !in p
    ensures Unambiguous(q, t, p)
  {
    forall q', t', p' | UniqueValue(q', t', p') == UniqueValue(q, t, p) ensures q' == q && t' == t && p' == p {
      NulPositions(q, t, p);
      NulPositions(q', t', p');
      NulIsSeparator(q, t, p, |q'|);
      NulIsSeparator(q, t, p, |q'| + 1 + |t'|);
    }
  }

  lemma SplitAtNul(s: string) returns (a: string, b: string)
    requires NUL in s
    ensures s == a + [NUL] + b
  {
    var i :| 0 <= i < |s| && s[i] == NUL;
    a, b := s[..i], s[i + 1..];
  }

  lemma UnambiguousIsNulFree(q: string, t: string, p: string)
    requires NUL in q || NUL in t || NUL in p
    ensures !Unambiguous(q, t, p)
  {
    if NUL in q {
      var a, b := SplitAtNul(q);
      assert UniqueValue(a, b, t + [NUL] + p) == UniqueValue(q, t, p);
      assert |a| < |q|;
    } else if NUL in t {
      var a, b := SplitAtNul(t);
      assert UniqueValue(q, a, b + [NUL] + p) == UniqueValue(q, t, p);
      assert |a| < |t|;
    } else {
      var a, b := SplitAtNul(p);
      assert UniqueValue(q + [NUL] + t, a, b) == UniqueValue(q, t, p);
      assert |q| < |q + [NUL] + t|;
    }
  }

  /** Over arbitrary byte strings the NUL-separated key names its queue, type and payload unambiguously
      exactly when none of the three contains a NUL. */
  lemma UniqueKeyUnambiguous(q: string, t: string, p: string)
    ensures Unambiguous(q, t, p) <==> NUL !in q && NUL !in t && NUL !in p
  {
    if NUL !in q && NUL !in t && NUL !in p {
      NulFreeIsUnambiguous(q, t, p);
    } else {
      UnambiguousIsNulFree(q, t, p);
    }
  }

  /** Among dispatches whose payload, being JSON, contains no NUL. */
  ghost predicate UnambiguousAmongJson(q: string, t: string, p: string) {
    forall q', t', p' :: NUL !in p' && UniqueValue(q', t', p') == UniqueValue(q, t, p) ==> q' == q && t' == t && p' == p
  }

  lemma NulInNamesCollides(q: string, t: string, p: string)
    requires NUL !in p && (NUL in q || NUL in t)
    ensures !UnambiguousAmongJson(q, t, p)
  {
    if NUL in q {
      var a, b := SplitAtNul(q);
      assert UniqueValue(a, b + [NUL] + t, p) == UniqueValue(q, t, p);
      assert |a| < |q|;
    } else {
      var a, b := SplitAtNul(t);
      assert UniqueValue(q + [NUL] + a, b, p) == UniqueValue(q, t, p);
      assert |q| < |q + [NUL] + a|;
    }
  }

  /** The payloads the dispatcher receives are JSON and never contain a raw NUL.  For them the key is
      unambiguous exactly when neither the queue nor the type contains one. */
  lemma JsonKeyUnambiguous(q: string, t: string, p: string)
    requires NUL !in p
    ensures UnambiguousAmongJson(q, t, p) <==> NUL !in q && NUL !in t
  {
    if NUL !in q && NUL !in t {
      NulFreeIsUnambiguous(q, t, p);
    } else {
      NulInNamesCollides(q, t, p);
    }
  }

  /** Between NUL-free queue and type names the encoding is injective, whatever the payloads. */
  lemma NamedKeyInjective(q: string, t: string, p: string, q': string, t': string, p': string)
    requires NUL !in q && NUL !in t && NUL !in q' && NUL !in t'
    requires UniqueValue(q, t, p) == UniqueValue(q', t', p')
    ensures q == q' && t == t' && p == p'
  {
    NulPositions(q, t, p);
    NulPositions(q', t', p');
    FirstNul(q, t, p, q', t', p');
    FirstNul(q', t', p', q, t, p);
    SecondNul(q, t, p, q', t', p');
    SecondNul(q', t', p', q, t, p);
  }

  lemma NamesInside(q: string, t: string, p: string)
    ensures var v := UniqueValue(q, t, p);
            && |v| == |q| + |t| + |p| + 2
            && (forall k :: 0 <= k < |q| ==> v[k] == q[k])
            && (forall k :: |q| < k <= |q| + |t| ==> v[k] == t[k - |q| - 1])
  {}

  lemma FirstNul(q: string, t: string, p: string, q': string, t': string, p': string)
    requires NUL !in q' && UniqueValue(q, t, p) == UniqueValue(q', t', p')
    ensures |q'| <= |q|
  {
    NulPositions(q, t, p);
    NamesInside(q', t', p');
  }

  lemma SecondNul(q: string, t: string, p: string, q': string, t': string, p': string)
    requires |q| == |q'| && NUL !in t' && UniqueValue(q, t, p) == UniqueValue(q', t', p')
    ensures |t'| <= |t|
  {
    NulPositions(q, t, p);
    NamesInside(q', t', p');
  }
}
