/** Decoded signals, their sort order, and the prune marker. */
module Signals {

  /** A float64, as far as coordinate validation can tell values apart. */
  datatype Num = NaN | PosInf | NegInf | Fin(value: real)

  datatype Location = Location(latitude: Num, longitude: Num, hdop: Num)

  /** Timestamps are nanoseconds; 0 stands for the zero time.Time. */
  datatype Signal = Signal(header: string, eventId: string, ts: int, name: string, number: Num, location: Location)

  const NOWHERE := Location(Fin(0.0), Fin(0.0), Fin(0.0))
  const PRUNE := "___prune"
  const PRUNED_SIGNAL := Signal("", "", 0, PRUNE, Fin(0.0), NOWHERE)

  predicate StringLe(a: string, b: string) {
    a == [] || (b != [] && (a[0] < b[0] || (a[0] == b[0] && StringLe(a[1..], b[1..]))))
  }

  lemma {:induction false} StringLeTotal(a: string, b: string)
    ensures StringLe(a, b) || StringLe(b, a)
  {
    if a != [] && b != [] && a[0] == b[0] { StringLeTotal(a[1..], b[1..]); }
  }

  lemma {:induction false} StringLeAntisymmetric(a: string, b: string)
    requires StringLe(a, b) && StringLe(b, a)
    ensures a == b
  {
    if a != [] && b != [] {
      StringLeAntisymmetric(a[1..], b[1..]);
      assert a == [a[0]] + a[1..] && b == [b[0]] + b[1..];
    }
  }

  lemma {:induction false} StringLeTransitive(a: string, b: string, c: string)
    requires StringLe(a, b) && StringLe(b, c)
    ensures StringLe(a, c)
  {
    if a != [] && a[0] == b[0] && b[0] == c[0] { StringLeTransitive(a[1..], b[1..], c[1..]); }
  }

  /** The comparison both sorts use: timestamp, then name. */
  predicate KeyLe(a: Signal, b: Signal) {
    a.ts < b.ts || (a.ts == b.ts && StringLe(a.name, b.name))
  }

  predicate SameKey(a: Signal, b: Signal) {
    a.name == b.name && a.ts == b.ts
  }

  lemma KeyOrder(a: Signal, b: Signal, c: Signal)
    ensures KeyLe(a, b) || KeyLe(b, a)
    ensures KeyLe(a, b) && KeyLe(b, a) ==> SameKey(a, b)
    ensures KeyLe(a, b) && KeyLe(b, c) ==> KeyLe(a, c)
  {
    StringLeTotal(a.name, b.name);
    if StringLe(a.name, b.name) && StringLe(b.name, a.name) { StringLeAntisymmetric(a.name, b.name); }
    if StringLe(a.name, b.name) && StringLe(b.name, c.name) { StringLeTransitive(a.name, b.name, c.name); }
  }

  ghost predicate Sorted(s: seq<Signal>) {
    forall i, j :: 0 <= i < j < |s| ==> KeyLe(s[i], s[j])
  }

  ghost predicate StrictlySorted(s: seq<Signal>) {
    Sorted(s) && forall i, j :: 0 <= i < j < |s| ==> !SameKey(s[i], s[j])
  }

  /** All that is known of the library sort, which is not stable: some sorted permutation. */
  ghost predicate SortOf(s: seq<Signal>, t: seq<Signal>) {
    Sorted(t) && multiset(t) == multiset(s)
  }

  function Insert(s: seq<Signal>, x: Signal): (t: seq<Signal>)
    ensures multiset(t) == multiset(s) + multiset{x}
  {
    if s == [] || KeyLe(x, s[0]) then [x] + s
    else
      assert s == [s[0]] + s[1..];
      [s[0]] + Insert(s[1..], x)
  }

  lemma {:induction false} InsertSorted(s: seq<Signal>, x: Signal)
    requires Sorted(s)
    ensures Sorted(Insert(s, x))
  {
    if s == [] {
    } else if KeyLe(x, s[0]) {
      forall j | 0 <= j < |s| ensures KeyLe(x, s[j]) { KeyOrder(x, s[0], s[j]); }
    } else {
      var t := Insert(s[1..], x);
      InsertSorted(s[1..], x);
      KeyOrder(s[0], x, x);
      forall j | 0 <= j < |t| ensures KeyLe(s[0], t[j]) {
        assert t[j] in multiset(t);
        if t[j] != x { assert t[j] in s[1..]; }
      }
    }
  }

  lemma SameLength(s: seq<Signal>, t: seq<Signal>)
    requires multiset(s) == multiset(t)
    ensures |s| == |t|
  {
    assert |s| == |multiset(s)| && |t| == |multiset(t)|;
  }

  function InsertionSort(s: seq<Signal>): seq<Signal> {
    if s == [] then [] else Insert(InsertionSort(s[1..]), s[0])
  }

  lemma {:induction false} InsertionSortSorts(s: seq<Signal>)
    ensures SortOf(s, InsertionSort(s))
  {
    if s != [] {
      InsertionSortSorts(s[1..]);
      InsertSorted(InsertionSort(s[1..]), s[0]);
      assert s == [s[0]] + s[1..];
    }
  }

  /** Stands for slices.SortFunc: callers know only that the result is some sorted permutation. */
  method SortSignals(a: array<Signal>)
    modifies a
    ensures SortOf(old(a[..]), a[..])
  {
    var s := InsertionSort(a[..]);
    InsertionSortSorts(a[..]);
    SameLength(s, a[..]);
    for i := 0 to a.Length
      invariant a[..i] == s[..i]
    {
      a[i] := s[i];
    }
    assert a[..] == a[..a.Length] == s[..a.Length] == s;
  }

  lemma {:induction false} Minimum(s: seq<Signal>, t: seq<Signal>)
    requires StrictlySorted(s) && SortOf(s, t) && s != []
    ensures t != [] && t[0] == s[0]
  {
    assert s[0] in multiset(t);
    var i :| 0 <= i < |t| && t[i] == s[0];
    assert t[0] in multiset(s);
    var j :| 0 <= j < |s| && s[j] == t[0];
    KeyOrder(s[0], t[0], t[0]);
  }

  lemma TailMultiset(s: seq<Signal>)
    requires s != []
    ensures s == [s[0]] + s[1..] && multiset(s[1..]) == multiset(s) - multiset{s[0]}
  {
    assert s == [s[0]] + s[1..];
  }

  /** A strictly sorted sequence has only itself as sorted permutation. */
  lemma {:induction false} SortIsIdentity(s: seq<Signal>, t: seq<Signal>)
    requires StrictlySorted(s) && SortOf(s, t)
    ensures t == s
  {
    if s == [] {
      assert |multiset(t)| == 0;
    } else {
      Minimum(s, t);
      TailMultiset(s);
      TailMultiset(t);
      SortIsIdentity(s[1..], t[1..]);
    }
  }

  // ----- The in-place filter -----

  function Kept(s: seq<Signal>): seq<Signal> {
    if s == [] then []
    else Kept(s[..|s| - 1]) + if s[|s| - 1].name != PRUNE then [s[|s| - 1]] else []
  }

  method DropPruned(a: array<Signal>) returns (n: nat)
    modifies a
    ensures n <= a.Length && a[..n] == Kept(old(a[..]))
  {
    n := 0;
    ghost var s := a[..];
    for i := 0 to a.Length
      invariant n <= i && a[..n] == Kept(s[..i])
      invariant a[i..] == s[i..]
    {
      assert a[i] == s[i] by { assert a[i..][0] == s[i..][0]; }
      assert s[..i + 1][..i] == s[..i];
      assert a[i + 1..] == a[i..][1..] && s[i + 1..] == s[i..][1..];
      if a[i].name != PRUNE {
        a[n] := a[i];
        n := n + 1;
      }
    }
    assert s[..a.Length] == s;
  }
}
