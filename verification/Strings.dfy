/** The order of Go strings, and sorting by it. */
module Strings {

  /** Lexicographic order, shorter prefixes first. */
  predicate Le(a: string, b: string) {
    a == "" || (b != "" && (a[0] < b[0] || (a[0] == b[0] && Le(a[1..], b[1..]))))
  }

  /** The strings agree up to k, and there the first one ends or has the smaller character. */
  predicate BelowAt(a: string, b: string, k: nat) {
    && k <= |a| && k <= |b| && a[..k] == b[..k]
    && (k == |a| || (k < |b| && a[k] < b[k]))
  }

  /** The order is that of the first difference. */
  lemma {:induction false} LeIsFirstDifference(a: string, b: string)
    ensures Le(a, b) <==> exists k: nat :: BelowAt(a, b, k)
  {
    if a == "" {
      assert BelowAt(a, b, 0);
    } else if b == "" || a[0] > b[0] {
      assert forall k: nat :: !BelowAt(a, b, k);
    } else if a[0] < b[0] {
      assert BelowAt(a, b, 0);
    } else {
      LeIsFirstDifference(a[1..], b[1..]);
      if k: nat :| BelowAt(a[1..], b[1..], k) {
        assert a[..k + 1] == [a[0]] + a[1..][..k] && b[..k + 1] == [b[0]] + b[1..][..k];
        assert BelowAt(a, b, k + 1);
      }
      if k: nat :| BelowAt(a, b, k) {
        assert a[1..][..k - 1] == a[..k][1..] && b[1..][..k - 1] == b[..k][1..];
        assert BelowAt(a[1..], b[1..], k - 1);
      }
    }
  }

  lemma {:induction false} LeTotal(a: string, b: string)
    ensures Le(a, b) || Le(b, a)
  {
    if a != "" && b != "" && a[0] == b[0] { LeTotal(a[1..], b[1..]); }
  }

  lemma {:induction false} LeAntisymmetric(a: string, b: string)
    requires Le(a, b) && Le(b, a)
    ensures a == b
  {
    if a != "" {
      LeAntisymmetric(a[1..], b[1..]);
      assert a == [a[0]] + a[1..] && b == [b[0]] + b[1..];
    }
  }

  lemma {:induction false} LeTransitive(a: string, b: string, c: string)
    requires Le(a, b) && Le(b, c)
    ensures Le(a, c)
  {
    if a != "" && a[0] == b[0] && b[0] == c[0] { LeTransitive(a[1..], b[1..], c[1..]); }
  }

  predicate Sorted(names: seq<string>) {
    forall i, j :: 0 <= i < j < |names| ==> Le(names[i], names[j])
  }

  lemma HeadIsLeast(a: seq<string>, name: string)
    requires Sorted(a) && name in multiset(a)
    ensures Le(a[0], name)
  {
    var i :| 0 <= i < |a| && a[i] == name;
    LeTotal(name, name);
  }

  lemma TailBag(a: seq<string>)
    requires a != []
    ensures multiset(a[1..]) == multiset(a) - multiset{a[0]}
  {
    assert a == [a[0]] + a[1..];
  }

  /** A sorted sequence is determined by its elements. */
  lemma {:induction false} SortedUnique(a: seq<string>, b: seq<string>)
    requires Sorted(a) && Sorted(b) && multiset(a) == multiset(b)
    ensures a == b
  {
    hide Le;
    assert |multiset(a)| == |a| && |multiset(b)| == |b|;
    if a != [] {
      assert a[0] in multiset(b) && b[0] in multiset(a);
      HeadIsLeast(a, b[0]);
      HeadIsLeast(b, a[0]);
      LeAntisymmetric(a[0], b[0]);
      TailBag(a);
      TailBag(b);
      SortedUnique(a[1..], b[1..]);
      assert a == [a[0]] + a[1..] && b == [b[0]] + b[1..];
    }
  }

  /** Where a name belongs in a sorted sequence. */
  method Place(names: seq<string>, name: string) returns (at: nat)
    requires Sorted(names)
    ensures at <= |names|
    ensures forall i :: 0 <= i < at ==> Le(names[i], name)
    ensures forall i :: at <= i < |names| ==> Le(name, names[i])
  {
    at := 0;
    while at < |names| && Le(names[at], name)
      invariant 0 <= at <= |names|
      invariant forall i :: 0 <= i < at ==> Le(names[i], name)
    {
      at := at + 1;
    }
    forall i | at <= i < |names| ensures Le(name, names[i]) {
      LeTotal(names[at], name);
      if at < i { LeTransitive(name, names[at], names[i]); }
    }
  }

  lemma InsertKeepsSorted(names: seq<string>, name: string, at: nat)
    requires Sorted(names) && at <= |names|
    requires forall i :: 0 <= i < at ==> Le(names[i], name)
    requires forall i :: at <= i < |names| ==> Le(name, names[i])
    ensures Sorted(names[..at] + [name] + names[at..])
    ensures multiset(names[..at] + [name] + names[at..]) == multiset(names) + multiset{name}
  {
    hide Le;
    assert names == names[..at] + names[at..];
  }

  method Sort(names: seq<string>) returns (sorted: seq<string>)
    ensures Sorted(sorted) && multiset(sorted) == multiset(names)
  {
    sorted := [];
    for k := 0 to |names|
      invariant Sorted(sorted) && multiset(sorted) == multiset(names[..k])
    {
      hide Le, Sorted;
      var at := Place(sorted, names[k]);
      InsertKeepsSorted(sorted, names[k], at);
      assert names[..k + 1] == names[..k] + [names[k]];
      sorted := sorted[..at] + [names[k]] + sorted[at..];
    }
    assert names[..|names|] == names;
  }
}
