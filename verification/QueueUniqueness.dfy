/** Who stands in whose way: a UniqueFor dispatch is refused for its uniqueness only by an earlier one of the
    same queue, type and payload. */
module QueueUniqueness {
  import opened Prelude
  import opened QueueTables
  import opened QueueSystem
  import opened QueueInvariant
  import opened QueueLocks

  /** The queue a dispatch goes to. */
  function TargetQueue(options: Options): string {
    if options.queue == "" then "default" else options.queue
  }

  predicate NulFree(message: Message, options: Options) {
    NUL !in TargetQueue(options) && NUL !in message.jobType
  }

  /** Same queue, same type, same payload. */
  predicate Namesakes(message: Message, options: Options, message': Message, options': Options) {
    message == message' && TargetQueue(options) == TargetQueue(options')
  }

  /** The uniqueness keys of two dispatches are the same exactly when queue, type and payload are. */
  lemma SameKeyIffNamesakes(message: Message, options: Options, message': Message, options': Options)
    requires NulFree(message, options) && NulFree(message', options')
    ensures UniqueKey(message, options) == UniqueKey(message', options')
            <==> Namesakes(message, options, message', options')
  {
    if UniqueKey(message, options) == UniqueKey(message', options') {
      NamedKeyInjective(TargetQueue(options), message.jobType, message.payload,
                        TargetQueue(options'), message'.jobType, message'.payload);
    }
  }

  /** Step m was accepted and put down the lock that stands under the key. */
  ghost predicate PutLock(run: Run, m: nat, key: LockKey, lock: Lock)
    requires m < |run.steps| && |run.states| == |run.steps| + 1
  {
    var e := run.steps[m];
    && Accepted(run.states[m], e) && 0 < e.options.uniqueFor
    && key == UniqueKey(e.message, e.options)
    && lock == Lock(e.id, Some(e.at.locks + e.options.uniqueFor))
  }

  lemma UniqueLockOldOrPut(s: System, e: Step, key: LockKey)
    requires Enabled(s, e) && key in Apply(s, e).t.locks && key.prefix == "unique"
    requires !(key in s.t.locks && s.t.locks[key] == Apply(s, e).t.locks[key])
    ensures Accepted(s, e) && 0 < e.options.uniqueFor && key == UniqueKey(e.message, e.options)
    ensures Apply(s, e).t.locks[key] == Lock(e.id, Some(e.at.locks + e.options.uniqueFor))
  {
    if Accepted(s, e) { LocksAfterDispatch(s.t, e.id, e.message, e.options, e.at, key); }
  }

  /** Every uniqueness lock of a reachable state was put down by an accepted dispatch. */
  lemma {:induction false} UniqueLockHasDispatch(run: Run, k: nat, key: LockKey) returns (m: nat)
    requires run.Valid() && k < |run.states| && key in run.states[k].t.locks && key.prefix == "unique"
    ensures m < k && PutLock(run, m, key, run.states[k].t.locks[key])
  {
    hide Apply, Enabled, Accepted;
    assert k > 0;
    var s, e := run.states[k - 1], run.steps[k - 1];
    assert run.Follows(k - 1);
    if key in s.t.locks && s.t.locks[key] == run.states[k].t.locks[key] {
      m := UniqueLockHasDispatch(run, k - 1, key);
    } else {
      m := k - 1;
      UniqueLockOldOrPut(s, e, key);
    }
  }

  /** Every queue and type name a dispatch of the run mentions is free of NULs. */
  ghost predicate NulFreeNames(run: Run) {
    forall k: nat :: k < |run.steps| ==> NamesFreeAt(run, k)
  }

  ghost predicate NamesFreeAt(run: Run, k: nat)
    requires k < |run.steps|
  {
    run.steps[k].Dispatch? ==> NulFree(run.steps[k].message, run.steps[k].options)
  }

  /** Step m is an earlier accepted dispatch of the same queue, type and payload that asked for uniqueness
      beyond the instant. */
  ghost predicate Namesake(run: Run, m: nat, k: nat, instant: int)
    requires m < |run.steps| && k < |run.steps| && |run.states| == |run.steps| + 1 && run.steps[k].Dispatch?
  {
    var e, e' := run.steps[m], run.steps[k];
    && Accepted(run.states[m], e) && 0 < e.options.uniqueFor
    && Namesakes(e.message, e.options, e'.message, e'.options)
    && instant < e.at.locks + e.options.uniqueFor
  }

  /** A dispatch under a new id is refused only because of such a namesake - never because of a job with
      another payload, type or queue. */
  lemma RefusedOnlyByNamesake(run: Run, k: nat) returns (m: nat)
    requires run.Valid() && NulFreeNames(run) && k < |run.steps| && run.steps[k].Dispatch?
    requires run.steps[k].id !in run.states[k].t.jobs && !Accepted(run.states[k], run.steps[k])
    ensures 0 < run.steps[k].options.uniqueFor
    ensures m < k && Namesake(run, m, k, run.steps[k].at.transaction)
  {
    hide Accepted, UniqueKey, NulFree, Namesakes;
    var e, t := run.steps[k], run.states[k].t;
    AcceptanceInReachableStates(run, k);
    var key := UniqueKey(e.message, e.options);
    assert key.prefix == "unique" by { KeyPrefix(e.message, e.options); }
    m := UniqueLockHasDispatch(run, k, key);
    AcceptedIsDispatch(run.states[m], run.steps[m]);
    assert NamesFreeAt(run, m) && NamesFreeAt(run, k);
    SameKeyIffNamesakes(run.steps[m].message, run.steps[m].options, e.message, e.options);
  }

  lemma KeyPrefix(message: Message, options: Options)
    ensures UniqueKey(message, options).prefix == "unique"
  {}

  /** And always then: while the namesake's job is not deleted by an operator, a dispatch that reads the
      clock as it stands is refused until the namesake's UniqueFor has passed. */
  lemma NamesakeRefuses(run: Run, m: nat, k: nat)
    requires run.Valid() && NulFreeNames(run) && m < k < |run.steps| && run.steps[k].Dispatch?
    requires 0 < run.steps[k].options.uniqueFor
    requires Namesake(run, m, k, run.states[k].clock)
    requires forall n :: m < n < k ==> !Deletes(run.states[n], run.steps[n], run.steps[m].id)
    ensures !Accepted(run.states[k], run.steps[k])
  {
    hide UniqueKey, NulFree, Deletes;
    assert NamesFreeAt(run, m) && NamesFreeAt(run, k);
    SameKeyIffNamesakes(run.steps[m].message, run.steps[m].options, run.steps[k].message, run.steps[k].options);
    if Accepted(run.states[k], run.steps[k]) { UniqueSpacing(run, m, k); }
  }

  /** Together, in runs without operator deletes: a UniqueFor dispatch under a new id that reads the clock as
      it stands is refused if and only if a namesake asked for uniqueness beyond that clock. */
  lemma RefusedIffNamesake(run: Run, k: nat)
    requires run.Valid() && NulFreeNames(run) && k < |run.steps| && run.steps[k].Dispatch?
    requires 0 < run.steps[k].options.uniqueFor && run.steps[k].id !in run.states[k].t.jobs
    requires run.steps[k].at.transaction == run.states[k].clock
    requires forall n :: 0 <= n < k ==> !run.steps[n].OperatorDelete?
    ensures !Accepted(run.states[k], run.steps[k])
            <==> exists m :: 0 <= m < k && Namesake(run, m, k, run.states[k].clock)
  {
    hide Namesake, NulFree, Accepted;
    if !Accepted(run.states[k], run.steps[k]) {
      var m := RefusedOnlyByNamesake(run, k);
    }
    if m :| 0 <= m < k && Namesake(run, m, k, run.states[k].clock) {
      NamesakeRefuses(run, m, k);
    }
  }
}
