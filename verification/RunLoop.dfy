/** The worker's polling loop over the weighted queue sequence. */
module RunLoop {
  import opened Prelude
  import opened Strings

  // -------------------------------------------------------- the weighted sequence

  /** How often a queue belongs in the sequence. */
  function Slots(queues: map<string, int>, name: string): nat {
    if name in queues then Max(queues[name], 0) else 0
  }

  /** Sorted, and each queue as often as its weight says. */
  ghost predicate IsWeighted(queues: map<string, int>, weighted: seq<string>) {
    Sorted(weighted) && forall name :: multiset(weighted)[name] == Slots(queues, name)
  }

  /** The sequence is a function of the weights: the order in which a map is iterated cannot show. */
  lemma WeightedIndependentOfMapOrder(queues: map<string, int>, a: seq<string>, b: seq<string>)
    requires IsWeighted(queues, a) && IsWeighted(queues, b)
    ensures a == b
  {
    assert multiset(a) == multiset(b);
    SortedUnique(a, b);
  }

  lemma NoRepeats(order: seq<string>, names: set<string>, k: nat)
    requires multiset(order) == multiset(names) && k < |order|
    ensures order[k] !in order[..k] && order[k] in names
  {
    assert order == order[..k] + [order[k]] + order[k + 1..];
    assert multiset(order)[order[k]] <= 1;
  }

  /** `order` is the order in which the runtime happens to iterate the map. */
  method WeightedQueueNames(queues: map<string, int>, order: seq<string>) returns (weighted: seq<string>)
    requires multiset(order) == multiset(queues.Keys)
    ensures IsWeighted(queues, weighted)
  {
    var names := Sort(order);
    weighted := [];
    for k := 0 to |names|
      invariant Sorted(weighted)
      invariant forall name :: name in weighted ==> name in names[..k]
      invariant forall name :: multiset(weighted)[name] == if name in names[..k] then Slots(queues, name) else 0
    {
      NoRepeats(names, queues.Keys, k);
      var copies := Max(queues[names[k]], 0);
      ghost var before := weighted;
      for j := 0 to copies
        invariant weighted == before + seq(j, _ => names[k])
      {
        weighted := weighted + [names[k]];
      }
      assert weighted == before + seq(copies, _ => names[k]);
      Appended(before, names, k, copies);
      assert names[..k + 1] == names[..k] + [names[k]];
    }
    assert names[..|names|] == names;
    forall name ensures name in names <==> name in queues {
      assert name in multiset(names) <==> name in queues.Keys;
    }
  }

  lemma CountCopies(name: string, copies: nat, other: string)
    ensures multiset(seq(copies, _ => name))[other] == if other == name then copies else 0
  {
    if copies != 0 {
      CountCopies(name, copies - 1, other);
      assert seq(copies, _ => name) == seq(copies - 1, _ => name) + [name];
    }
  }

  lemma Appended(before: seq<string>, names: seq<string>, k: nat, copies: nat)
    requires Sorted(names) && k < |names| && Sorted(before)
    requires forall name :: name in before ==> name in names[..k]
    ensures var after := before + seq(copies, _ => names[k]);
            && Sorted(after)
            && (forall name :: name in after ==> name in names[..k + 1])
            && (forall name :: multiset(after)[name] == multiset(before)[name] + if name == names[k] then copies else 0)
  {
    var after := before + seq(copies, _ => names[k]);
    LeTotal(names[k], names[k]);
    forall i, j | 0 <= i < j < |after| ensures Le(after[i], after[j]) {
      if i < |before| <= j { assert before[i] in names[..k]; }
    }
    assert names[..k + 1] == names[..k] + [names[k]];
    forall name ensures multiset(after)[name] == multiset(before)[name] + if name == names[k] then copies else 0 {
      CountCopies(names[k], copies, name);
    }
  }

  // ------------------------------------------------------------------ the loop

  /** What a poll came back with. */
  datatype Outcome = Error | Empty | Job

  /** How many empty polls the loop has counted since its last sleep or job, before poll k. */
  function Streak(outcomes: seq<Outcome>, slots: nat, k: nat): nat
    requires k <= |outcomes|
  {
    if k == 0 then 0
    else if outcomes[k - 1] == Empty && Streak(outcomes, slots, k - 1) + 1 < slots
    then Streak(outcomes, slots, k - 1) + 1
    else 0
  }

  /** Whether the loop sleeps after poll k. */
  predicate Sleeps(outcomes: seq<Outcome>, slots: nat, k: nat)
    requires k < |outcomes|
  {
    outcomes[k] == Error || (outcomes[k] == Empty && slots <= Streak(outcomes, slots, k) + 1)
  }

  lemma ModNext(a: nat, n: nat)
    requires 0 < n
    ensures (a + 1) % n == (a % n + 1) % n
  {
    var q, r := a / n, a % n;
    assert a == q * n + r;
    if r + 1 < n {
      DivModIs(a + 1, n, q, r + 1);
      DivModIs(r + 1, n, 0, r + 1);
    } else {
      assert a + 1 == (q + 1) * n + 0;
      DivModIs(a + 1, n, q + 1, 0);
      DivModIs(r + 1, n, 1, 0);
    }
  }

  lemma MultipleIsLarge(d: nat, n: nat)
    requires 1 <= d
    ensures n <= d * n
  {}

  lemma DivModIs(a: nat, n: nat, q: nat, r: nat)
    requires r < n && a == q * n + r
    ensures a % n == r && a / n == q
  {
    SameQuotient(n, q, r, a / n, a % n);
  }

  lemma LargerQuotient(n: nat, q: nat, r: nat, q': nat, r': nat)
    requires r < n && q < q'
    ensures q * n + r < q' * n + r'
  {
    MultipleIsLarge(q' - q, n);
    assert (q' - q) * n == q' * n - q * n;
  }

  lemma SameQuotient(n: nat, q: nat, r: nat, q': nat, r': nat)
    requires r < n && r' < n && q * n + r == q' * n + r'
    ensures q == q' && r == r'
  {
    if q < q' { LargerQuotient(n, q, r, q', r'); }
    if q' < q { LargerQuotient(n, q', r', q, r); }
  }

  /** Which slot of the sequence poll k takes. */
  function Slot(offset: nat, k: nat, slots: nat): (slot: nat)
    requires 0 < slots
    ensures slot < slots
  {
    (offset + k) % slots
  }

  lemma NextSlot(offset: nat, k: nat, slots: nat)
    requires 0 < slots
    ensures Slot(offset, k + 1, slots) == (Slot(offset, k, slots) + 1) % slots
    ensures Slot(offset, 0, slots) == offset % slots
  {
    ModNext(offset + k, slots);
  }

  /** The polls of the loop: poll m takes its slot of the sequence. */
  ghost predicate Polls(weighted: seq<string>, polled: seq<string>, offset: nat)
    requires |weighted| != 0
  {
    forall m :: 0 <= m < |polled| ==> polled[m] == weighted[Slot(offset, m, |weighted|)]
  }

  /** Up to poll k the last length-of-sequence polls were all empty and were the whole sequence. */
  ghost predicate WholeSweep(weighted: seq<string>, polled: seq<string>, outcomes: seq<Outcome>, k: nat)
    requires k < |polled| && |polled| == |outcomes|
  {
    && |weighted| <= k + 1
    && multiset(polled[k + 1 - |weighted|..k + 1]) == multiset(weighted)
    && forall j :: k + 1 - |weighted| <= j <= k ==> outcomes[j] == Empty
  }

  /** runLoop from its start until the context ends: `outcomes` are the results of its polls. */
  method Loop(weighted: seq<string>, offset: nat, outcomes: seq<Outcome>)
    returns (polled: seq<string>, slept: seq<bool>)
    requires |weighted| != 0
    ensures |polled| == |slept| == |outcomes|
    ensures Polls(weighted, polled, offset)
    ensures forall k :: 0 <= k < |slept| ==> (slept[k] <==> Sleeps(outcomes, |weighted|, k))
    ensures forall k :: 0 <= k < |slept| && slept[k] && outcomes[k] != Error ==>
              WholeSweep(weighted, polled, outcomes, k)
  {
    polled, slept := [], [];
    NextSlot(offset, 0, |weighted|);
    hide Slot;
    var index := offset % |weighted|;
    var emptyReserves := 0;
    for k := 0 to |outcomes|
      invariant |polled| == |slept| == k
      invariant index == Slot(offset, k, |weighted|)
      invariant emptyReserves == Streak(outcomes, |weighted|, k)
      invariant forall m :: 0 <= m < k ==> polled[m] == weighted[Slot(offset, m, |weighted|)]
      invariant forall m :: 0 <= m < k ==> (slept[m] <==> Sleeps(outcomes, |weighted|, m))
    {
      polled := polled + [weighted[index]];
      NextSlot(offset, k, |weighted|);
      index := (index + 1) % |weighted|;
      if outcomes[k] == Error || outcomes[k] == Empty {
        emptyReserves := emptyReserves + 1;
        if outcomes[k] != Error && emptyReserves < |weighted| {
          slept := slept + [false];
          continue;
        }
        emptyReserves := 0;
        slept := slept + [true];
        continue;
      }
      emptyReserves := 0;
      slept := slept + [false];
    }
    hide Sleeps, Streak, WholeSweep;
    forall k | 0 <= k < |slept| && slept[k] && outcomes[k] != Error ensures WholeSweep(weighted, polled, outcomes, k) {
      IdleSweepIsWhole(weighted, offset, polled, outcomes, k);
    }
  }

  // -------------------------------------------------------------- its promises

  /** The streak really is that many empty polls without a sleep, right before poll k. */
  lemma {:induction false} StreakMeaning(outcomes: seq<Outcome>, slots: nat, k: nat)
    requires k <= |outcomes| && 0 < slots
    ensures var n := Streak(outcomes, slots, k);
            && n <= k && n < slots
            && (forall j :: k - n <= j < k ==> outcomes[j] == Empty && !Sleeps(outcomes, slots, j))
            && (n < k ==> outcomes[k - n - 1] != Empty || Sleeps(outcomes, slots, k - n - 1))
  {
    if k > 0 { StreakMeaning(outcomes, slots, k - 1); }
  }

  /** The loop sleeps without an error only when the last length-of-sequence polls were all empty and
      none of the earlier ones was followed by a sleep; an error always sleeps; a job never does. */
  lemma IdleSleepFollowsFullSweep(outcomes: seq<Outcome>, slots: nat, k: nat)
    requires k < |outcomes| && 0 < slots
    ensures outcomes[k] == Error ==> Sleeps(outcomes, slots, k) && Streak(outcomes, slots, k + 1) == 0
    ensures outcomes[k] == Job ==> !Sleeps(outcomes, slots, k) && Streak(outcomes, slots, k + 1) == 0
    ensures Sleeps(outcomes, slots, k) && outcomes[k] != Error ==>
      slots <= k + 1 && forall j :: k + 1 - slots <= j <= k ==>
        outcomes[j] == Empty && (j < k ==> !Sleeps(outcomes, slots, j))
  {
    StreakMeaning(outcomes, slots, k);
  }

  /** Conversely, empty polls cannot go on for a whole sweep without a sleep. */
  lemma EmptySweepSleeps(outcomes: seq<Outcome>, slots: nat, k: nat)
    requires 0 < slots && k + slots <= |outcomes|
    requires forall j :: k <= j < k + slots ==> outcomes[j] == Empty
    ensures exists j :: k <= j < k + slots && Sleeps(outcomes, slots, j)
  {
    if forall j :: k <= j < k + slots ==> !Sleeps(outcomes, slots, j) {
      StreakGrows(outcomes, slots, k, slots - 1);
      assert Sleeps(outcomes, slots, k + slots - 1);
    }
  }

  lemma {:induction false} StreakGrows(outcomes: seq<Outcome>, slots: nat, k: nat, m: nat)
    requires k + m < |outcomes|
    requires forall j :: k <= j < k + m ==> outcomes[j] == Empty && !Sleeps(outcomes, slots, j)
    ensures m <= Streak(outcomes, slots, k + m)
  {
    if m > 0 { StreakGrows(outcomes, slots, k, m - 1); }
  }

  /** The queues polled by a window of polls from the given one on. */
  function Window(weighted: seq<string>, first: nat): seq<string>
    requires |weighted| != 0
  {
    seq(|weighted|, j requires 0 <= j => weighted[Slot(first, j, |weighted|)])
  }

  /** The polls of the loop from any point on are such a window. */
  lemma PollsAreWindow(weighted: seq<string>, polled: seq<string>, offset: nat, k: nat)
    requires |weighted| != 0 && k + |weighted| <= |polled| && Polls(weighted, polled, offset)
    ensures polled[k..k + |weighted|] == Window(weighted, offset + k)
  {
    var window, part := Window(weighted, offset + k), polled[k..k + |weighted|];
    forall j | 0 <= j < |weighted| ensures part[j] == window[j] {
      assert polled[k + j] == weighted[Slot(offset, k + j, |weighted|)];
      assert Slot(offset, k + j, |weighted|) == Slot(offset + k, j, |weighted|);
    }
  }

  lemma ModSplit(first: nat, j: nat, n: nat)
    requires 0 < n && j < n
    ensures var r := first % n; (first + j) % n == if r + j < n then r + j else r + j - n
  {
    var q, r := first / n, first % n;
    assert first == q * n + r;
    if r + j < n {
      DivModIs(first + j, n, q, r + j);
    } else {
      assert first + j == (q + 1) * n + (r + j - n);
      DivModIs(first + j, n, q + 1, r + j - n);
    }
  }

  /** Whatever poll it starts with, a window is the whole sequence, rotated. */
  lemma WindowIsRotation(weighted: seq<string>, first: nat)
    requires |weighted| != 0
    ensures multiset(Window(weighted, first)) == multiset(weighted)
  {
    var n, r := |weighted|, first % |weighted|;
    forall j | 0 <= j < n ensures Window(weighted, first)[j] == (weighted[r..] + weighted[..r])[j] {
      ModSplit(first, j, n);
    }
    assert Window(weighted, first) == weighted[r..] + weighted[..r];
    assert weighted == weighted[..r] + weighted[r..];
  }

  /** Weighted fairness: every window of length-of-sequence consecutive polls, from any offset and any
      point of the run, polls each queue exactly as often as its weight says. */
  lemma WindowPollsEachQueueItsWeight(queues: map<string, int>, weighted: seq<string>, first: nat, name: string)
    requires IsWeighted(queues, weighted) && |weighted| != 0
    ensures multiset(Window(weighted, first)) == multiset(weighted)
    ensures multiset(Window(weighted, first))[name]
            == if name in queues && 0 < queues[name] then queues[name] else 0
  {
    hide Window;
    WindowIsRotation(weighted, first);
  }

  /** The queue was polled after position `from`, up to k, and was empty. */
  ghost predicate FoundEmpty(polled: seq<string>, outcomes: seq<Outcome>, from: int, k: nat, name: string)
    requires k < |polled| && k < |outcomes| && 0 <= from
  {
    exists j :: from <= j <= k && polled[j] == name && outcomes[j] == Empty
  }

  /** When the loop sleeps without an error, its last length-of-sequence polls were the whole sequence and
      all empty. */
  lemma IdleSweepIsWhole(weighted: seq<string>, offset: nat, polled: seq<string>, outcomes: seq<Outcome>, k: nat)
    requires |weighted| != 0 && |polled| == |outcomes| && k < |outcomes| && Polls(weighted, polled, offset)
    requires Sleeps(outcomes, |weighted|, k) && outcomes[k] != Error
    ensures WholeSweep(weighted, polled, outcomes, k)
  {
    hide Slot, Streak, Sleeps, Window, Polls;
    IdleSleepFollowsFullSweep(outcomes, |weighted|, k);
    PollsAreWindow(weighted, polled, offset, k + 1 - |weighted|);
    WindowIsRotation(weighted, offset + k + 1 - |weighted|);
  }

  /** So before an idle sleep of the loop every queue of positive weight was polled, and found empty, within
      the last length-of-sequence polls. */
  lemma IdleSweepCoversEveryQueue(queues: map<string, int>, weighted: seq<string>, offset: nat,
                                  polled: seq<string>, outcomes: seq<Outcome>, k: nat, name: string)
    requires IsWeighted(queues, weighted) && |weighted| != 0
    requires |polled| == |outcomes| && k < |outcomes| && Polls(weighted, polled, offset)
    requires Sleeps(outcomes, |weighted|, k) && outcomes[k] != Error
    requires name in queues && 0 < queues[name]
    ensures |weighted| <= k + 1 && FoundEmpty(polled, outcomes, k + 1 - |weighted|, k, name)
  {
    hide Sleeps, Polls;
    IdleSweepIsWhole(weighted, offset, polled, outcomes, k);
    FoundInSweep(polled, outcomes, k + 1 - |weighted|, k, name);
  }

  lemma FoundInSweep(polled: seq<string>, outcomes: seq<Outcome>, from: nat, k: nat, name: string)
    requires from <= k < |polled| && |polled| == |outcomes|
    requires 0 < multiset(polled[from..k + 1])[name]
    requires forall j :: from <= j <= k ==> outcomes[j] == Empty
    ensures FoundEmpty(polled, outcomes, from, k, name)
  {
    assert name in polled[from..k + 1];
    var j :| 0 <= j < k + 1 - from && polled[from..k + 1][j] == name;
    assert polled[from + j] == name;
  }
}
