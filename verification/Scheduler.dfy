/** The schedule registry and the runner that turns due schedules into dispatches. */
module Scheduler {
  import opened Prelude
  import opened Strings
  import opened Calendar
  import opened QueueTables
  import QueueStore

  const MIN_RETENTION: int := 2 * MINUTE

  /** A parsed cron expression: the next fire time strictly after an instant, if there is one. */
  type Schedule = int -> Option<int>

  /** `factory` tells whether a job factory was given; `payload` is what its job serialises to, None when
      that cannot be serialised. */
  datatype Definition = Definition(
    name: string, cron: string, timezone: string, factory: bool,
    jobType: string, payload: Option<string>, options: Options, schedule: Schedule)

  datatype RegisterError = MissingField | AlreadyRegistered | UnknownTimezone | BadCron

  function Names(definitions: seq<Definition>): seq<string> {
    seq(|definitions|, i requires 0 <= i < |definitions| => definitions[i].name)
  }

  /** Ordered by name, no name twice. */
  ghost predicate Ordered(definitions: seq<Definition>) {
    forall i, j :: 0 <= i < j < |definitions| ==>
      Le(definitions[i].name, definitions[j].name) && definitions[i].name != definitions[j].name
  }

  ghost predicate AllHaveJobs(definitions: seq<Definition>) {
    forall i :: 0 <= i < |definitions| ==> definitions[i].factory
  }

  /** The minute an instant lies in. */
  predicate InMinute(at: int, minute: nat) { minute * MINUTE <= at < (minute + 1) * MINUTE }

  /** The schedule fires at the minute: its next fire time after the minute before is that minute. */
  predicate FiresAt(d: Definition, minute: nat) {
    d.schedule((minute as int - 1) * MINUTE) == Some(minute * MINUTE)
  }

  /** The due definitions in registry order. */
  function DueAt(definitions: seq<Definition>, minute: nat): seq<Definition> {
    if definitions == [] then []
    else
      var last := definitions[|definitions| - 1];
      DueAt(definitions[..|definitions| - 1], minute) + if FiresAt(last, minute) then [last] else []
  }

  /** The dispatch options of a due schedule: its own, with the task ID and a minimum retention. */
  function RunOptions(d: Definition, minute: nat): Options {
    d.options.(taskId := TaskId(d.name, minute), retention := Max(d.options.retention, MIN_RETENTION))
  }

  class Registry {
    var definitions: seq<Definition>

    constructor ()
      ensures definitions == [] && AllHaveJobs(definitions)
    {
      definitions := [];
    }

    /** `location` and `parsed` are what the timezone and cron libraries answer for this definition. */
    method Register(d: Definition, location: Option<string>, parsed: Option<Schedule>)
      returns (error: Option<RegisterError>)
      requires Ordered(definitions) && AllHaveJobs(definitions)
      modifies this
      ensures Ordered(definitions) && AllHaveJobs(definitions)
      ensures error == if d.name == "" || d.cron == "" || !d.factory then Some(MissingField)
                       else if d.name in Names(old(definitions)) then Some(AlreadyRegistered)
                       else if location.None? then Some(UnknownTimezone)
                       else if parsed.None? then Some(BadCron)
                       else None
      ensures error.Some? ==> definitions == old(definitions)
      ensures error.None? ==>
        location.Some? && parsed.Some?
        && exists at :: 0 <= at <= |old(definitions)|
             && definitions == old(definitions)[..at]
                               + [d.(timezone := location.value, schedule := parsed.value)]
                               + old(definitions)[at..]
    {
      if d.name == "" || d.cron == "" || !d.factory {
        return Some(MissingField);
      }
      for k := 0 to |definitions|
        invariant forall i :: 0 <= i < k ==> definitions[i].name != d.name
      {
        if definitions[k].name == d.name {
          assert Names(definitions)[k] == d.name;
          return Some(AlreadyRegistered);
        }
      }
      if location.None? {
        return Some(UnknownTimezone);
      }
      if parsed.None? {
        return Some(BadCron);
      }
      var names := Names(definitions);
      assert Sorted(names);
      var at := Place(names, d.name);
      forall i | 0 <= i < |definitions| ensures names[i] == definitions[i].name {}
      var registered := d.(timezone := location.value, schedule := parsed.value);
      definitions := definitions[..at] + [registered] + definitions[at..];
      return None;
    }

    method Due(at: int) returns (due: seq<Definition>)
      requires 0 <= at
      ensures forall minute: nat :: InMinute(at, minute) ==> due == DueAt(definitions, minute)
    {
      var truncated := at / MINUTE;
      ghost var minute: nat := truncated;
      var previous := truncated * MINUTE - MINUTE;
      due := [];
      for k := 0 to |definitions|
        invariant due == DueAt(definitions[..k], minute)
      {
        assert definitions[..k + 1][..k] == definitions[..k];
        assert previous == (minute - 1) * MINUTE;
        if definitions[k].schedule(previous) == Some(truncated * MINUTE) {
          due := due + [definitions[k]];
        }
      }
      assert definitions[..|definitions|] == definitions;
      forall other: nat | InMinute(at, other) ensures other == minute { SameMinute(at, minute, other); }
    }
  }

  // ------------------------------------------------------------- what is due

  /** The parser's promise: Next is the least fire time strictly after its argument. */
  ghost predicate Answers(schedule: Schedule, fires: iset<int>) {
    forall t: int ::
      match schedule(t)
      case Some(n) => t < n && n in fires && forall f :: t < f < n ==> f !in fires
      case None => forall f :: t < f ==> f !in fires
  }

  /** Cron fires on whole minutes only. */
  ghost predicate WholeMinutes(fires: iset<int>) { forall f :: f in fires ==> f % MINUTE == 0 }

  lemma WholeMinute(minute: int, f: int)
    requires f % MINUTE == 0 && (minute - 1) * MINUTE < f
    ensures minute * MINUTE <= f
  {
    assert f == (f / MINUTE) * MINUTE;
  }

  /** A definition is due at a minute exactly when its cron expression fires at that minute. */
  lemma DueIffFires(d: Definition, fires: iset<int>, minute: nat)
    requires Answers(d.schedule, fires) && WholeMinutes(fires)
    ensures FiresAt(d, minute) <==> minute * MINUTE in fires
  {
    var previous := (minute as int - 1) * MINUTE;
    var next := d.schedule(previous);
    if minute * MINUTE in fires {
      assert previous < minute * MINUTE;
      if next.Some? { WholeMinute(minute, next.value); }
    }
  }

  /** Due lists exactly the definitions that fire, unchanged, and keeps the registry's order and distinct names. */
  lemma {:induction false} DueIsFilter(definitions: seq<Definition>, minute: nat)
    requires Ordered(definitions)
    ensures Ordered(DueAt(definitions, minute))
    ensures forall d :: d in DueAt(definitions, minute) <==> d in definitions && FiresAt(d, minute)
  {
    hide FiresAt, Le;
    if definitions != [] {
      var front, last := definitions[..|definitions| - 1], definitions[|definitions| - 1];
      DueIsFilter(front, minute);
      var before := DueAt(front, minute);
      assert definitions == front + [last];
      assert DueAt(definitions, minute) == if FiresAt(last, minute) then before + [last] else before;
      forall i | 0 <= i < |before| ensures Le(before[i].name, last.name) && before[i].name != last.name {
        assert before[i] in front;
        var j :| 0 <= j < |front| && front[j] == before[i];
        assert definitions[j] == front[j] && definitions[|front|] == last;
      }
    }
  }

  /** The instant lies in the minute that starts at f, for a whole-minute f. */
  lemma MinuteOfFire(at: int, minute: nat, f: int)
    requires InMinute(at, minute) && f % MINUTE == 0
    ensures f == minute * MINUTE <==> f <= at < f + MINUTE
  {
    assert f == (f / MINUTE) * MINUTE;
  }

  /** So a tick at any instant means exactly the definitions whose cron expression fires in the minute it
      lies in: at the last whole minute not after it. */
  lemma DueMeansFiringNow(definitions: seq<Definition>, fires: string -> iset<int>, at: int, minute: nat)
    requires Ordered(definitions) && InMinute(at, minute)
    requires forall d :: d in definitions ==> Answers(d.schedule, fires(d.name)) && WholeMinutes(fires(d.name))
    ensures forall d :: d in DueAt(definitions, minute)
                        <==> d in definitions && exists f :: f in fires(d.name) && f <= at < f + MINUTE
  {
    DueIsFilter(definitions, minute);
    hide DueAt, FiresAt, InMinute, Answers, Ordered;
    forall d | d in definitions
      ensures FiresAt(d, minute) <==> exists f :: f in fires(d.name) && f <= at < f + MINUTE
    {
      DueIffFires(d, fires(d.name), minute);
      if f :| f in fires(d.name) && f <= at < f + MINUTE { MinuteOfFire(at, minute, f); }
      MinuteStarts(at, minute);
    }
  }

  lemma MinuteStarts(at: int, minute: nat)
    requires InMinute(at, minute)
    ensures minute * MINUTE <= at < minute * MINUTE + MINUTE
  {}

  // ---------------------------------------------------------------- the runner

  /** One dispatch of a tick, with the tables it met. */
  datatype Call = Call(before: Tables, at: Readings, refused: bool)

  /** A tick's dispatches in order, each for its due definition, with the tables chained through. */
  ghost predicate Chain(due: seq<Definition>, minute: nat, calls: seq<Call>, first: Tables, last: Tables) {
    if due == [] then calls == [] && first == last
    else
      var n := |due| - 1;
      && |calls| == |due|
      && Chain(due[..n], minute, calls[..n], first, calls[n].before)
      && last == AfterCall(due[n], minute, calls[n])
      && (calls[n].refused <==> due[n].payload.None?)
  }

  lemma ChainGrows(due: seq<Definition>, minute: nat, calls: seq<Call>, first: Tables, middle: Tables,
                   d: Definition, call: Call)
    requires Chain(due, minute, calls, first, middle) && call.before == middle
    requires call.refused <==> d.payload.None?
    ensures Chain(due + [d], minute, calls + [call], first, AfterCall(d, minute, call))
  {
    hide AfterCall;
    assert (due + [d])[..|due|] == due && (calls + [call])[..|calls|] == calls;
    ChainLength(due, minute, calls, first, middle);
  }

  /** Every call of the tick read the clock within the tick. */
  ghost predicate Within(calls: seq<Call>, from: int, upto: int) {
    forall k :: 0 <= k < |calls| ==> calls[k].at.Ordered(from, upto)
  }

  lemma WithinGrows(calls: seq<Call>, call: Call, from: int, middle: int, upto: int)
    requires Within(calls, from, middle) && from <= middle <= upto && call.at.Ordered(middle, upto)
    ensures Within(calls + [call], from, upto)
  {}

  lemma NoCalls(minute: nat, t: Tables, from: int)
    ensures Chain([], minute, [], t, t) && Within([], from, from)
  {}

  lemma ChainLength(due: seq<Definition>, minute: nat, calls: seq<Call>, first: Tables, middle: Tables)
    requires Chain(due, minute, calls, first, middle)
    ensures |calls| == |due|
  {}

  /** The tables after one dispatch of the tick. */
  function AfterCall(d: Definition, minute: nat, call: Call): Tables {
    if d.payload.None? then call.before
    else
      var message := Message(d.jobType, d.payload.value);
      DispatchTx(call.before, TaskId(d.name, minute), message, RunOptions(d, minute), call.at)
  }

  class Runner {
    const registry: Registry
    const dispatcher: QueueStore.DatabaseDispatcher

    constructor (registry: Registry, dispatcher: QueueStore.DatabaseDispatcher)
      ensures this.registry == registry && this.dispatcher == dispatcher
    {
      this.registry, this.dispatcher := registry, dispatcher;
    }

    /** Dispatch one due schedule under its task ID with at least the minimum retention. */
    method RunOne(d: Definition, minute: nat) returns (failed: bool, ghost call: Call)
      modifies dispatcher.db, dispatcher.clock
      ensures call.before == old(dispatcher.db.View())
      ensures dispatcher.db.View() == AfterCall(d, minute, call)
      ensures call.at.Ordered(old(dispatcher.clock.now), dispatcher.clock.now)
      ensures failed <==> call.refused
      ensures call.refused <==> d.payload.None?
    {
      var options := d.options;
      options := options.(taskId := TaskId(d.name, minute));
      if options.retention < 2 * MINUTE {
        options := options.(retention := 2 * MINUTE);
      }
      ghost var before := dispatcher.db.View();
      hide DispatchTx, Accepts;
      var result, readings := dispatcher.Dispatch(d.jobType, d.payload, options, "");
      failed := result.Err? && result.error != QueueStore.DuplicateJob;
      call := Call(before, readings, d.payload.None?);
    }

    /** Run one tick: every schedule due in the minute of the instant is dispatched under its task ID; a
        duplicate is no error. */
    method Run(at: int) returns (errors: seq<string>, ghost minute: nat, ghost calls: seq<Call>)
      requires 0 <= at
      modifies dispatcher.db, dispatcher.clock
      ensures InMinute(at, minute)
      ensures Chain(DueAt(registry.definitions, minute), minute, calls, old(dispatcher.db.View()), dispatcher.db.View())
      ensures Within(calls, old(dispatcher.clock.now), dispatcher.clock.now)
      ensures forall name :: name in errors <==>
                exists k :: 0 <= k < |calls| && calls[k].refused
                         && k < |DueAt(registry.definitions, minute)|
                         && DueAt(registry.definitions, minute)[k].name == name
    {
      hide AfterCall, Chain, Within, DueAt, FiresAt;
      var truncated := at / MINUTE;
      minute := truncated;
      errors := [];
      calls := [];
      var due := registry.Due(truncated * MINUTE);
      assert InMinute(truncated * MINUTE, minute);
      NoCalls(minute, dispatcher.db.View(), dispatcher.clock.now);
      assert due[..0] == [];
      for k := 0 to |due|
        invariant |calls| == k
        invariant old(dispatcher.clock.now) <= dispatcher.clock.now
        invariant Chain(due[..k], minute, calls, old(dispatcher.db.View()), dispatcher.db.View())
        invariant Within(calls, old(dispatcher.clock.now), dispatcher.clock.now)
        invariant forall name :: name in errors <==>
                    exists j :: 0 <= j < k && calls[j].refused && due[j].name == name
      {
        ghost var middle, before := dispatcher.db.View(), dispatcher.clock.now;
        var failed, call := RunOne(due[k], truncated);
        if failed {
          errors := errors + [due[k].name];
        }
        WithinGrows(calls, call, old(dispatcher.clock.now), before, dispatcher.clock.now);
        ChainGrows(due[..k], minute, calls, old(dispatcher.db.View()), middle, due[k], call);
        calls := calls + [call];
        assert due[..k + 1] == due[..k] + [due[k]];
      }
      assert due[..|due|] == due;
    }
  }

  lemma SameMinute(at: int, a: nat, b: nat)
    requires InMinute(at, a) && InMinute(at, b)
    ensures a == b
  {}
}
