/** Dropping future and duplicate signals, and grouping what is left by name. */
module Prune {
  import opened Signals

  /** The latest acceptable timestamp when entry i is examined: the clock is read once per entry,
      so any function is possible. */
  type Horizon = nat -> int

  /** Entry i is overwritten by the marker: it is in the future, or its successor has its key. */
  predicate Marked(s: seq<Signal>, h: Horizon, i: nat)
    requires i < |s|
  {
    s[i].ts > h(i) || (i + 1 < |s| && SameKey(s[i], s[i + 1]))
  }

  /** What survives of the first k entries. */
  function Survivors(s: seq<Signal>, h: Horizon, k: nat): seq<Signal>
    requires k <= |s|
  {
    if k == 0 then []
    else Survivors(s, h, k - 1) + if Marked(s, h, k - 1) || s[k - 1].name == PRUNE then [] else [s[k - 1]]
  }

  function Futures(s: seq<Signal>, h: Horizon, k: nat): seq<Signal>
    requires k <= |s|
  {
    if k == 0 then []
    else Futures(s, h, k - 1) + if s[k - 1].ts > h(k - 1) then [s[k - 1]] else []
  }

  lemma {:induction false} KeptIsSurvivors(s: seq<Signal>, t: seq<Signal>, h: Horizon, k: nat)
    requires |s| == |t| && k <= |s|
    requires forall i :: 0 <= i < k ==> t[i] == if Marked(s, h, i) then PRUNED_SIGNAL else s[i]
    ensures Kept(t[..k]) == Survivors(s, h, k)
  {
    if k > 0 {
      KeptIsSurvivors(s, t, h, k - 1);
      assert t[..k][..k - 1] == t[..k - 1];
    }
  }

  /** Sorts and filters `a` in place; the surviving prefix has length n. One error is reported per
      future signal. `s` is the order the sort happened to choose. */
  method PruneFutureAndDuplicateSignals(a: array<Signal>, h: Horizon)
    returns (n: nat, errs: seq<Signal>, ghost s: seq<Signal>)
    modifies a
    ensures SortOf(old(a[..]), s)
    ensures n <= a.Length && a[..n] == Survivors(s, h, |s|)
    ensures errs == Futures(s, h, |s|)
  {
    SortSignals(a);
    s := a[..];
    errs := [];
    for i := 0 to a.Length
      invariant errs == Futures(s, h, i)
      invariant forall j :: 0 <= j < i ==> a[j] == if Marked(s, h, j) then PRUNED_SIGNAL else s[j]
      invariant forall j :: i <= j < a.Length ==> a[j] == s[j]
    {
      if a[i].ts > h(i) {
        errs := errs + [a[i]];
        a[i] := PRUNED_SIGNAL;
      } else if i < a.Length - 1 && SameKey(a[i], a[i + 1]) {
        a[i] := PRUNED_SIGNAL;
      }
    }
    ghost var t := a[..];
    KeptIsSurvivors(s, t, h, |s|);
    assert t[..|s|] == t;
    n := DropPruned(a);
  }

  /** The last entry of the run of equal keys that entry i belongs to. */
  function LastOfRun(s: seq<Signal>, i: nat): (l: nat)
    requires i < |s|
    ensures i <= l < |s| && SameKey(s[i], s[l])
    decreases |s| - i
  {
    if i + 1 < |s| && SameKey(s[i], s[i + 1]) then LastOfRun(s, i + 1) else i
  }

  /** In a sorted sequence it is the last entry with that key anywhere. */
  lemma {:induction false} LastOfRunIsLast(s: seq<Signal>, i: nat, j: nat)
    requires Sorted(s) && i < |s| && j < |s| && SameKey(s[i], s[j])
    ensures j <= LastOfRun(s, i)
    decreases |s| - i
  {
    if j > i {
      KeyOrder(s[i], s[i + 1], s[i]);
      LastOfRunIsLast(s, i + 1, j);
    }
  }

  predicate Accepted(s: seq<Signal>, h: Horizon, i: nat)
    requires i < |s|
  {
    s[i].ts <= h(i) && s[i].name != PRUNE && LastOfRun(s, i) == i
  }

  /** x is entry i of s: the last of its run, not in the future, not named like the marker. */
  ghost predicate Comes(s: seq<Signal>, h: Horizon, i: nat, x: Signal)
  {
    i < |s| && Accepted(s, h, i) && s[i] == x
  }

  lemma {:induction false} SurvivorsAccepted(s: seq<Signal>, h: Horizon, k: nat, m: nat)
    returns (i: nat)
    requires k <= |s| && m < |Survivors(s, h, k)|
    ensures i < k && Comes(s, h, i, Survivors(s, h, k)[m])
  {
    if m < |Survivors(s, h, k - 1)| {
      i := SurvivorsAccepted(s, h, k - 1, m);
    } else {
      i := k - 1;
    }
  }

  lemma {:induction false} AcceptedSurvive(s: seq<Signal>, h: Horizon, k: nat, i: nat)
    requires i < k <= |s| && Accepted(s, h, i)
    ensures s[i] in Survivors(s, h, k)
  {
    if i < k - 1 { AcceptedSurvive(s, h, k - 1, i); }
  }

  lemma {:induction false} SurvivorsSorted(s: seq<Signal>, h: Horizon, k: nat)
    requires Sorted(s) && k <= |s|
    ensures StrictlySorted(Survivors(s, h, k))
  {
    if k > 0 {
      SurvivorsSorted(s, h, k - 1);
      var prev := Survivors(s, h, k - 1);
      forall m | 0 <= m < |prev| ensures KeyLe(prev[m], s[k - 1]) && !SameKey(prev[m], s[k - 1]) {
        var i := SurvivorsAccepted(s, h, k - 1, m);
        if SameKey(s[i], s[k - 1]) { LastOfRunIsLast(s, i, k - 1); }
      }
    }
  }

  lemma {:induction false} LastOfRunTwice(s: seq<Signal>, i: nat)
    requires i < |s|
    ensures LastOfRun(s, LastOfRun(s, i)) == LastOfRun(s, i)
    decreases |s| - i
  {
    if i + 1 < |s| && SameKey(s[i], s[i + 1]) { LastOfRunTwice(s, i + 1); }
  }

  /** Exactly one survivor, the last of its run in sorted order, for each distinct key whose last
      entry is not in the future (and which is not the marker's own name), and none for the others. */
  lemma OneSurvivorPerKey(s: seq<Signal>, h: Horizon, i: nat, out: seq<Signal>)
    requires Sorted(s) && i < |s| && out == Survivors(s, h, |s|)
    ensures StrictlySorted(out)
    ensures var l := LastOfRun(s, i);
            if s[l].ts <= h(l) && s[l].name != PRUNE then s[l] in out
            else forall m :: 0 <= m < |out| ==> !SameKey(out[m], s[i])
  {
    SurvivorsSorted(s, h, |s|);
    var l := LastOfRun(s, i);
    LastOfRunTwice(s, i);
    if s[l].ts <= h(l) && s[l].name != PRUNE {
      AcceptedSurvive(s, h, |s|, l);
    } else {
      forall m | 0 <= m < |out| ensures !SameKey(out[m], s[i]) {
        var j := SurvivorsAccepted(s, h, |s|, m);
        if SameKey(out[m], s[i]) {
          LastOfRunIsLast(s, i, j);
          LastOfRunIsLast(s, j, l);
        }
      }
    }
  }

  /** Pruned output is already in the order the coordinate store sorts into, so that second sort
      cannot change it, unstable or not. */
  lemma SecondSortIsIdentity(s: seq<Signal>, h: Horizon, t: seq<Signal>)
    requires Sorted(s) && SortOf(Survivors(s, h, |s|), t)
    ensures t == Survivors(s, h, |s|)
  {
    SurvivorsSorted(s, h, |s|);
    SortIsIdentity(Survivors(s, h, |s|), t);
  }

  // ----- Grouping by name -----

  function WithName(s: seq<Signal>, name: string): seq<Signal> {
    if s == [] then []
    else WithName(s[..|s| - 1], name) + if s[|s| - 1].name == name then [s[|s| - 1]] else []
  }

  /** Each occurring name has its signals, in order, and no other name has an entry. */
  ghost predicate Grouped(s: seq<Signal>, byName: map<string, seq<Signal>>) {
    forall name ::
      && WithName(s, name) == (if name in byName then byName[name] else [])
      && (name in byName ==> byName[name] != [])
  }

  lemma GroupedNext(s: seq<Signal>, x: Signal, byName: map<string, seq<Signal>>)
    requires Grouped(s, byName)
    ensures Grouped(s + [x], byName[x.name := (if x.name in byName then byName[x.name] else []) + [x]])
  {
    assert (s + [x])[..|s|] == s;
  }

  lemma {:induction false} OccurringIsGrouped(s: seq<Signal>, i: nat)
    requires i < |s|
    ensures s[i] in WithName(s, s[i].name)
  {
    if i < |s| - 1 { OccurringIsGrouped(s[..|s| - 1], i); }
  }

  method GroupSignalsByName(s: seq<Signal>) returns (byName: map<string, seq<Signal>>)
    ensures Grouped(s, byName)
    ensures forall i :: 0 <= i < |s| ==> s[i].name in byName
  {
    byName := map[];
    for i := 0 to |s|
      invariant Grouped(s[..i], byName)
    {
      GroupedNext(s[..i], s[i], byName);
      assert s[..i + 1] == s[..i] + [s[i]];
      var name := s[i].name;
      byName := byName[name := (if name in byName then byName[name] else []) + [s[i]]];
    }
    assert s[..|s|] == s;
    forall i | 0 <= i < |s| ensures s[i].name in byName {
      OccurringIsGrouped(s, i);
    }
  }
}
