/** Vocabulary shared by the two views of the sink's write path. */
module Writes {

  /** What one WriteBundle call reports: durably stored, a deterministic row rejection
      (ErrPoisonRow), or any other error. */
  datatype Outcome = Stored | Poison | Transient

  /** The rows lo, ..., hi - 1 of a bundle. */
  datatype Range = Range(lo: nat, hi: nat)

  const PROBE_LIMIT: nat := 8
  const POISON_REDELIVERY_THRESHOLD: nat := 10

  /** The global-fault short-circuit of a bisection. */
  predicate ProbeExhausted(committed: nat, attempts: nat) {
    committed == 0 && attempts >= PROBE_LIMIT
  }

  /** Whether a row that just failed alone with outcome `o` is terminated. */
  predicate TermsRow(o: Outcome, committed: nat, deliveries: nat) {
    o.Poison? || (o.Transient? && committed > 0 && deliveries >= POISON_REDELIVERY_THRESHOLD)
  }
}

/** The bisection that re-drives a bundle which failed to commit whole. */
module Isolate {
  import opened Writes

  /** The world a pass runs in. `write(a, lo, hi)` is the writer's answer to the a-th call of
      the pass, so any writer behaviour whatsoever is some function; `cancelled(a)` says whether
      the context is done once a calls were made; `deliveries` has one entry per row. */
  datatype World = World(write: (nat, nat, nat) -> Outcome, cancelled: nat -> bool, deliveries: seq<nat>)

  /** isolateState together with everything the pass did: the ranges it called the writer on, committed
      ranges, acked rows, rows that failed alone and rows terminated, each in the order it happened. */
  datatype Pass = Pass(
    committed: nat,
    attempts: nat,
    calls: seq<Range>,
    commits: seq<Range>,
    acked: seq<nat>,
    alone: seq<nat>,
    termed: seq<nat>)

  const FRESH := Pass(0, 0, [], [], [], [], [])

  function Rows(lo: nat, hi: nat): (s: seq<nat>)
    requires lo <= hi
    ensures |s| == hi - lo
    ensures forall i :: 0 <= i < |s| ==> s[i] == lo + i
  {
    seq(hi - lo, i requires 0 <= i => lo + i)
  }

  /** One attempt on [lo, hi) that stored the range. */
  function Store(p: Pass, lo: nat, hi: nat): Pass
    requires lo <= hi
  {
    p.(committed := p.committed + (hi - lo), attempts := p.attempts + 1,
       calls := p.calls + [Range(lo, hi)], commits := p.commits + [Range(lo, hi)], acked := p.acked + Rows(lo, hi))
  }

  /** One attempt on a range of several rows that failed. */
  function FailWide(p: Pass, lo: nat, hi: nat): Pass {
    p.(attempts := p.attempts + 1, calls := p.calls + [Range(lo, hi)])
  }

  /** One attempt on the single row `lo`, delivered `deliveries` times, that failed with outcome `o`. */
  function FailAlone(p: Pass, lo: nat, o: Outcome, deliveries: nat): Pass {
    p.(attempts := p.attempts + 1, calls := p.calls + [Range(lo, lo + 1)], alone := p.alone + [lo],
       termed := p.termed + if TermsRow(o, p.committed, deliveries) then [lo] else [])
  }

  /** The value-level meaning of isolateRange, used to state what the method computes. */
  function Bisect(w: World, lo: nat, hi: nat, p: Pass): Pass
    requires lo <= hi <= |w.deliveries|
    decreases hi - lo
  {
    if lo == hi || w.cancelled(p.attempts) || ProbeExhausted(p.committed, p.attempts) then p
    else
      var o := w.write(p.attempts, lo, hi);
      if o.Stored? then Store(p, lo, hi)
      else if hi - lo == 1 then FailAlone(p, lo, o, w.deliveries[lo])
      else
        var mid := lo + (hi - lo) / 2;
        Bisect(w, mid, hi, Bisect(w, lo, mid, FailWide(p, lo, hi)))
  }

  class IsolateState {
    var committed: nat
    var attempts: nat
    // What the pass did to the world outside.
    var calls: seq<Range>
    var commits: seq<Range>
    var acked: seq<nat>
    var alone: seq<nat>
    var termed: seq<nat>

    ghost function View(): Pass
      reads this
    {
      Pass(committed, attempts, calls, commits, acked, alone, termed)
    }

    constructor ()
      ensures View() == FRESH
    {
      committed, attempts, calls, commits, acked, alone, termed := 0, 0, [], [], [], [], [];
    }

    method AckRows(lo: nat, hi: nat)
      requires lo <= hi
      modifies this`acked
      ensures acked == old(acked) + Rows(lo, hi)
    {
      for i := lo to hi
        invariant acked == old(acked) + Rows(lo, i)
      {
        assert Rows(lo, i) + [i] == Rows(lo, i + 1);
        acked := acked + [i];
      }
    }

    method IsolateRange(w: World, lo: nat, hi: nat)
      requires lo <= hi <= |w.deliveries|
      modifies this
      ensures View() == Bisect(w, lo, hi, old(View()))
      decreases hi - lo
    {
      if lo >= hi || w.cancelled(attempts) {
        return;
      }
      if ProbeExhausted(committed, attempts) {
        return;
      }
      var o := w.write(attempts, lo, hi);
      attempts := attempts + 1;
      calls := calls + [Range(lo, hi)];
      if o.Stored? {
        committed := committed + (hi - lo);
        commits := commits + [Range(lo, hi)];
        AckRows(lo, hi);
        return;
      }
      if hi - lo == 1 {
        alone := alone + [lo];
        if TermsRow(o, committed, w.deliveries[lo]) {
          termed := termed + [lo];
        } else {
          assert termed == termed + [];
        }
        return;
      }
      var mid := lo + (hi - lo) / 2;
      IsolateRange(w, lo, mid);
      IsolateRange(w, mid, hi);
    }
  }

  /** One whole isolate pass over a failed bundle. */
  method IsolateBundle(w: World) returns (st: IsolateState)
    ensures fresh(st) && st.View() == Bisect(w, 0, |w.deliveries|, FRESH)
  {
    st := new IsolateState();
    st.IsolateRange(w, 0, |w.deliveries|);
  }

  // ----- What a pass keeps, for every writer and every cancellation -----

  ghost predicate Ascending(s: seq<nat>) {
    forall i, j :: 0 <= i < j < |s| ==> s[i] < s[j]
  }

  function Flatten(rs: seq<Range>): seq<nat> {
    if rs == [] then []
    else Flatten(rs[..|rs| - 1]) + (var r := rs[|rs| - 1]; if r.lo <= r.hi then Rows(r.lo, r.hi) else [])
  }

  /** Committed ranges are non-empty, pairwise disjoint and in increasing order, below `k`. */
  ghost predicate Ordered(rs: seq<Range>, k: nat) {
    && (forall i :: 0 <= i < |rs| ==> rs[i].lo < rs[i].hi <= k)
    && (forall i, j :: 0 <= i < j < |rs| ==> rs[i].hi <= rs[j].lo)
  }

  /** Everything recorded concerns rows below `k`, acks are exactly the rows of the committed
      ranges, and no row is both acked and failed alone. */
  ghost predicate Recorded(commits: seq<Range>, acked: seq<nat>, alone: seq<nat>, termed: seq<nat>, k: nat) {
    && Ordered(commits, k)
    && acked == Flatten(commits)
    && (acked == [] <==> commits == [])
    && Ascending(acked) && Ascending(alone)
    && (forall i :: 0 <= i < |acked| ==> acked[i] < k)
    && (forall i :: 0 <= i < |alone| ==> alone[i] < k && alone[i] !in acked)
    && (forall i :: i in termed ==> i in alone)
  }

  ghost predicate Tidy(p: Pass, k: nat) {
    && Recorded(p.commits, p.acked, p.alone, p.termed, k)
    && p.committed == |p.acked|
    && (p.committed == 0 ==> p.attempts <= PROBE_LIMIT)
  }

  lemma TidyWidens(p: Pass, k: nat, m: nat)
    requires Tidy(p, k) && k <= m
    ensures Tidy(p, m)
  {
  }

  lemma {:induction false} StoreKeepsTidy(p: Pass, lo: nat, hi: nat)
    requires Tidy(p, lo) && lo < hi
    ensures Tidy(Store(p, lo, hi), hi)
  {
    var q := Store(p, lo, hi);
    assert q.commits[..|q.commits| - 1] == p.commits;
    assert forall i :: 0 <= i < |p.acked| ==> q.acked[i] == p.acked[i];
    assert forall i :: |p.acked| <= i < |q.acked| ==> q.acked[i] == lo + (i - |p.acked|);
  }

  lemma FailKeepsTidy(w: World, p: Pass, lo: nat, o: Outcome)
    requires Tidy(p, lo) && lo < |w.deliveries| && !ProbeExhausted(p.committed, p.attempts)
    ensures Tidy(FailAlone(p, lo, o, w.deliveries[lo]), lo + 1)
  {
    var q := FailAlone(p, lo, o, w.deliveries[lo]);
    assert forall i :: 0 <= i < |p.alone| ==> q.alone[i] == p.alone[i];
  }

  lemma {:induction false} BisectKeepsTidy(w: World, lo: nat, hi: nat, p: Pass, r: Pass)
    requires lo <= hi <= |w.deliveries| && Tidy(p, lo) && r == Bisect(w, lo, hi, p)
    ensures Tidy(r, hi)
    decreases hi - lo
  {
    if lo == hi || w.cancelled(p.attempts) || ProbeExhausted(p.committed, p.attempts) {
      TidyWidens(p, lo, hi);
    } else if w.write(p.attempts, lo, hi).Stored? {
      StoreKeepsTidy(p, lo, hi);
    } else if hi - lo == 1 {
      FailKeepsTidy(w, p, lo, w.write(p.attempts, lo, hi));
    } else {
      var mid, q := lo + (hi - lo) / 2, FailWide(p, lo, hi);
      var r1 := Bisect(w, lo, mid, q);
      BisectKeepsTidy(w, lo, mid, q, r1);
      BisectKeepsTidy(w, mid, hi, r1, r);
    }
  }

  /** Every row below `k` was either committed and acked, or failed alone. */
  ghost predicate Settled(p: Pass, k: nat) {
    forall i: nat :: i < k ==> i in p.acked || i in p.alone
  }

  lemma {:induction false} BisectSettles(w: World, lo: nat, hi: nat, p: Pass)
    requires lo <= hi <= |w.deliveries| && Settled(p, lo)
    requires forall a: nat :: !w.cancelled(a)
    ensures var r := Bisect(w, lo, hi, p);
            ProbeExhausted(r.committed, r.attempts) || Settled(r, hi)
    decreases hi - lo
  {
    if lo == hi || ProbeExhausted(p.committed, p.attempts) {
    } else {
      var o := w.write(p.attempts, lo, hi);
      if o.Stored? {
        var r := Store(p, lo, hi);
        forall i: nat | i < hi ensures i in r.acked || i in r.alone {
          if lo <= i { assert Rows(lo, hi)[i - lo] == i; }
        }
      } else if hi - lo == 1 {
        var r := FailAlone(p, lo, o, w.deliveries[lo]);
        assert r.alone[|r.alone| - 1] == lo;
      } else {
        var mid := lo + (hi - lo) / 2;
        var q := FailWide(p, lo, hi);
        var r := Bisect(w, lo, mid, q);
        BisectSettles(w, lo, mid, q);
        if !ProbeExhausted(r.committed, r.attempts) {
          BisectSettles(w, mid, hi, r);
        }
      }
    }
  }

  /** The dichotomy: without cancellation, a pass either commits and acks nothing within the
      probe limit, or settles every row exactly one way; committed ranges are always disjoint
      and increasing and the acks are exactly their rows. */
  lemma PassDichotomy(w: World)
    requires forall a: nat :: !w.cancelled(a)
    ensures var n, r := |w.deliveries|, Bisect(w, 0, |w.deliveries|, FRESH);
            && Ordered(r.commits, n) && r.acked == Flatten(r.commits) && Ascending(r.acked)
            && (|| (r.commits == [] && r.acked == [] && r.attempts <= PROBE_LIMIT)
                || (r.commits != [] && forall i: nat :: i < n ==> (i in r.acked) != (i in r.alone)))
  {
    BisectKeepsTidy(w, 0, |w.deliveries|, FRESH, Bisect(w, 0, |w.deliveries|, FRESH));
    BisectSettles(w, 0, |w.deliveries|, FRESH);
  }

  /** With or without cancellation, acks never leave the committed ranges, and what is
      terminated was tried alone and never acked. */
  lemma CancelledPassIsSafe(w: World)
    ensures Tidy(Bisect(w, 0, |w.deliveries|, FRESH), |w.deliveries|)
  {
    BisectKeepsTidy(w, 0, |w.deliveries|, FRESH, Bisect(w, 0, |w.deliveries|, FRESH));
  }

  // ----- Evidence for termination -----

  /** Some call before the a-th was stored. */
  ghost predicate StoredBefore(w: World, calls: seq<Range>, a: nat) {
    exists b: nat :: b < a && b < |calls| && w.write(b, calls[b].lo, calls[b].hi).Stored?
  }

  /** The a-th call was on row `i` alone and its answer justifies dropping the row: the poison tag, or
      another failure of a row delivered often enough, after an earlier call of the pass was stored. */
  ghost predicate Justifies(w: World, calls: seq<Range>, a: nat, i: nat) {
    && a < |calls| && i < |w.deliveries| && calls[a] == Range(i, i + 1)
    && var o := w.write(a, i, i + 1);
       o.Poison? || (o.Transient? && w.deliveries[i] >= POISON_REDELIVERY_THRESHOLD && StoredBefore(w, calls, a))
  }

  ghost predicate Evidence(w: World, calls: seq<Range>, i: nat) {
    exists a: nat :: Justifies(w, calls, a, i)
  }

  /** Every termination so far has its evidence among the calls, and something was committed exactly
      when some call was stored. */
  ghost predicate Justified(w: World, p: Pass) {
    && |p.calls| == p.attempts
    && (p.committed > 0 <==> StoredBefore(w, p.calls, |p.calls|))
    && (forall k :: 0 <= k < |p.termed| ==> Evidence(w, p.calls, p.termed[k]))
  }

  lemma EvidenceKept(w: World, calls: seq<Range>, r: Range, i: nat)
    requires Evidence(w, calls, i)
    ensures Evidence(w, calls + [r], i)
  {
    var a: nat :| Justifies(w, calls, a, i);
    var more := calls + [r];
    if StoredBefore(w, calls, a) {
      var b: nat :| b < a && b < |calls| && w.write(b, calls[b].lo, calls[b].hi).Stored?;
      assert more[b] == calls[b];
    }
    assert more[a] == calls[a];
    assert Justifies(w, more, a, i);
  }

  lemma StoredNext(w: World, calls: seq<Range>, r: Range)
    ensures StoredBefore(w, calls + [r], |calls| + 1)
            <==> StoredBefore(w, calls, |calls|) || w.write(|calls|, r.lo, r.hi).Stored?
    ensures StoredBefore(w, calls + [r], |calls|) <==> StoredBefore(w, calls, |calls|)
  {
    var more := calls + [r];
    assert more[|calls|] == r;
    assert forall b :: 0 <= b < |calls| ==> more[b] == calls[b];
  }

  lemma CallJustified(w: World, p: Pass, lo: nat, hi: nat, r: Pass)
    requires Justified(w, p) && lo < hi
    requires r.calls == p.calls + [Range(lo, hi)] && r.attempts == p.attempts + 1 && r.termed == p.termed
    requires r.committed == p.committed + if w.write(p.attempts, lo, hi).Stored? then hi - lo else 0
    ensures Justified(w, r)
  {
    StoredNext(w, p.calls, Range(lo, hi));
    forall k | 0 <= k < |r.termed| ensures Evidence(w, r.calls, r.termed[k]) {
      EvidenceKept(w, p.calls, Range(lo, hi), p.termed[k]);
    }
  }

  lemma FailIsJustified(w: World, p: Pass, lo: nat, o: Outcome)
    requires Justified(w, p) && lo < |w.deliveries| && o == w.write(p.attempts, lo, lo + 1) && !o.Stored?
    ensures Justified(w, FailAlone(p, lo, o, w.deliveries[lo]))
  {
    var r := FailAlone(p, lo, o, w.deliveries[lo]);
    CallJustified(w, p, lo, lo + 1, r.(termed := p.termed));
    StoredNext(w, p.calls, Range(lo, lo + 1));
    if TermsRow(o, p.committed, w.deliveries[lo]) {
      assert Justifies(w, r.calls, p.attempts, lo);
    }
    forall k | 0 <= k < |r.termed| ensures Evidence(w, r.calls, r.termed[k]) {
      if k < |p.termed| { EvidenceKept(w, p.calls, Range(lo, lo + 1), p.termed[k]); }
    }
  }

  lemma {:induction false} BisectIsJustified(w: World, lo: nat, hi: nat, p: Pass, r: Pass)
    requires lo <= hi <= |w.deliveries| && Justified(w, p) && r == Bisect(w, lo, hi, p)
    ensures Justified(w, r)
    decreases hi - lo
  {
    if lo == hi || w.cancelled(p.attempts) || ProbeExhausted(p.committed, p.attempts) {
    } else {
      var o, q := w.write(p.attempts, lo, hi), FailWide(p, lo, hi);
      if o.Stored? {
        CallJustified(w, p, lo, hi, r);
      } else if hi - lo == 1 {
        FailIsJustified(w, p, lo, o);
      } else {
        CallJustified(w, p, lo, hi, q);
        var mid := lo + (hi - lo) / 2;
        var r1 := Bisect(w, lo, mid, q);
        BisectIsJustified(w, lo, mid, q, r1);
        BisectIsJustified(w, mid, hi, r1, r);
      }
    }
  }

  /** Nothing is terminated without evidence against that very row, which was tried alone, failed
      and was not acked; cancelled or not. */
  lemma TermNeedsEvidence(w: World, i: nat)
    ensures var r := Bisect(w, 0, |w.deliveries|, FRESH);
            i in r.termed ==> Evidence(w, r.calls, i) && i in r.alone && i !in r.acked
  {
    CancelledPassIsSafe(w);
    BisectIsJustified(w, 0, |w.deliveries|, FRESH, Bisect(w, 0, |w.deliveries|, FRESH));
  }

  /** An outage never drops a healthy row: if the writer tags nothing as poison and the pass
      commits nothing, nothing is terminated however often the rows were redelivered. */
  lemma OutageTermsNothing(w: World)
    requires forall a, lo, hi :: !w.write(a, lo, hi).Poison?
    ensures var r := Bisect(w, 0, |w.deliveries|, FRESH); r.commits == [] ==> r.termed == []
  {
    var r := Bisect(w, 0, |w.deliveries|, FRESH);
    CancelledPassIsSafe(w);
    BisectIsJustified(w, 0, |w.deliveries|, FRESH, r);
    if r.termed != [] {
      var a: nat :| Justifies(w, r.calls, a, r.termed[0]);
      assert StoredBefore(w, r.calls, |r.calls|);
    }
  }

  // ----- Cost -----

  /** No writer, however perverse, is called more than 2n - 1 times. */
  lemma {:induction false} AttemptsAtMostTwicePerRow(w: World, lo: nat, hi: nat, p: Pass)
    requires lo < hi <= |w.deliveries|
    ensures Bisect(w, lo, hi, p).attempts <= p.attempts + 2 * (hi - lo) - 1
    decreases hi - lo
  {
    if w.cancelled(p.attempts) || ProbeExhausted(p.committed, p.attempts) {
    } else if !w.write(p.attempts, lo, hi).Stored? && hi - lo > 1 {
      var mid, q := lo + (hi - lo) / 2, FailWide(p, lo, hi);
      AttemptsAtMostTwicePerRow(w, lo, mid, q);
      AttemptsAtMostTwicePerRow(w, mid, hi, Bisect(w, lo, mid, q));
    }
  }

  function CeilLog2(m: nat): nat {
    if m <= 1 then 0 else 1 + CeilLog2((m + 1) / 2)
  }

  function Pow2(k: nat): nat {
    if k == 0 then 1 else 2 * Pow2(k - 1)
  }

  /** CeilLog2 is what its name says: the least exponent whose power reaches m. */
  lemma {:induction false} CeilLog2IsLeast(m: nat, k: nat)
    requires m >= 1
    ensures m <= Pow2(k) <==> CeilLog2(m) <= k
    decreases k
  {
    if m == 1 {
      PowPositive(k);
    } else if k > 0 {
      CeilLog2IsLeast((m + 1) / 2, k - 1);
    }
  }

  lemma {:induction false} PowPositive(k: nat)
    ensures Pow2(k) >= 1
  {
    if k > 0 { PowPositive(k - 1); }
  }

  lemma {:induction false} CeilLog2Monotone(m: nat, n: nat)
    requires m <= n
    ensures CeilLog2(m) <= CeilLog2(n)
  {
    if m > 1 { CeilLog2Monotone((m + 1) / 2, (n + 1) / 2); }
  }

  function PoisonIn(bad: set<nat>, lo: nat, hi: nat): nat
    requires lo <= hi
  {
    |set i | i in bad && lo <= i < hi|
  }

  lemma PoisonSplits(bad: set<nat>, lo: nat, mid: nat, hi: nat)
    requires lo <= mid <= hi
    ensures PoisonIn(bad, lo, hi) == PoisonIn(bad, lo, mid) + PoisonIn(bad, mid, hi)
  {
    var l, r := set i | i in bad && lo <= i < mid, set i | i in bad && mid <= i < hi;
    assert (set i | i in bad && lo <= i < hi) == l + r;
  }

  /** The writer stores a range exactly when it holds none of the bad rows. */
  ghost predicate Rejects(w: World, bad: set<nat>) {
    forall a, lo: nat, hi: nat :: lo <= hi ==> (w.write(a, lo, hi).Stored? <==> PoisonIn(bad, lo, hi) == 0)
  }

  function PoisonBudget(bad: set<nat>, lo: nat, hi: nat): nat
    requires lo <= hi
  {
    2 * (PoisonIn(bad, lo, hi) * CeilLog2(hi - lo))
  }

  lemma BudgetSplits(bad: set<nat>, lo: nat, hi: nat)
    requires hi - lo > 1 && PoisonIn(bad, lo, hi) > 0
    ensures var mid := lo + (hi - lo) / 2;
            2 + PoisonBudget(bad, lo, mid) + PoisonBudget(bad, mid, hi) <= PoisonBudget(bad, lo, hi)
  {
    var mid, half := lo + (hi - lo) / 2, CeilLog2((hi - lo + 1) / 2);
    var kl, kr := PoisonIn(bad, lo, mid), PoisonIn(bad, mid, hi);
    PoisonSplits(bad, lo, mid, hi);
    CeilLog2Monotone(mid - lo, (hi - lo + 1) / 2);
    CeilLog2Monotone(hi - mid, (hi - lo + 1) / 2);
    MulLe(kl, CeilLog2(mid - lo), half);
    MulLe(kr, CeilLog2(hi - mid), half);
    Distributes(kl, kr, half);
  }

  /** With k poison rows in a range of m rows, at most 1 + 2k * ceil(log2 m) calls. */
  lemma {:induction false} PoisonCost(w: World, bad: set<nat>, lo: nat, hi: nat, p: Pass, r: Pass)
    requires lo < hi <= |w.deliveries| && Rejects(w, bad) && r == Bisect(w, lo, hi, p)
    ensures r.attempts <= p.attempts + 1 + PoisonBudget(bad, lo, hi)
    decreases hi - lo
  {
    if w.cancelled(p.attempts) || ProbeExhausted(p.committed, p.attempts) {
    } else if !w.write(p.attempts, lo, hi).Stored? && hi - lo > 1 {
      var mid, q := lo + (hi - lo) / 2, FailWide(p, lo, hi);
      var r1 := Bisect(w, lo, mid, q);
      PoisonCost(w, bad, lo, mid, q, r1);
      PoisonCost(w, bad, mid, hi, r1, r);
      BudgetSplits(bad, lo, hi);
    }
  }

  lemma Distributes(k: nat, m: nat, a: nat)
    ensures (k + m) * (a + 1) == k * a + m * a + (k + m)
  {
  }

  lemma MulLe(k: nat, a: nat, b: nat)
    requires a <= b
    ensures k * a <= k * b
  {
  }

  // ----- One poison row -----

  /** The writer rejects exactly the ranges holding row `p`, always with outcome `tag`. */
  ghost predicate RejectsOnly(w: World, p: nat, tag: Outcome) {
    && !tag.Stored?
    && (forall a: nat :: !w.cancelled(a))
    && (forall a, lo: nat, hi: nat :: w.write(a, lo, hi) == if lo <= p < hi then tag else Stored)
  }

  /** The rows of [lo, hi) other than `bad`. */
  function RowsExcept(lo: nat, bad: nat, hi: nat): seq<nat>
    requires lo <= bad < hi
  {
    Rows(lo, bad) + Rows(bad + 1, hi)
  }

  lemma {:induction false} HealthyRangeStored(w: World, p: nat, tag: Outcome, lo: nat, hi: nat, q: Pass)
    requires lo < hi <= |w.deliveries| && RejectsOnly(w, p, tag) && !(lo <= p < hi)
    requires !ProbeExhausted(q.committed, q.attempts)
    ensures Bisect(w, lo, hi, q) == Store(q, lo, hi)
  {
  }

  /** From `q` to `r` exactly row `p` of [lo, hi) was isolated and every other row stored. */
  ghost predicate Found(w: World, p: nat, tag: Outcome, lo: nat, hi: nat, q: Pass, r: Pass)
    requires lo <= p < hi <= |w.deliveries|
  {
    && r.committed > 0
    && r.acked == q.acked + RowsExcept(lo, p, hi)
    && r.alone == q.alone + [p]
    && r.termed == q.termed + if TermsRow(tag, 1, w.deliveries[p]) then [p] else []
  }

  lemma RowsJoin(lo: nat, mid: nat, hi: nat, p: nat)
    requires lo <= mid <= hi && lo <= p < hi
    ensures p < mid ==> RowsExcept(lo, p, mid) + Rows(mid, hi) == RowsExcept(lo, p, hi)
    ensures mid <= p ==> Rows(lo, mid) + RowsExcept(mid, p, hi) == RowsExcept(lo, p, hi)
  {
  }

  lemma FoundLeft(w: World, p: nat, tag: Outcome, lo: nat, mid: nat, hi: nat, q: Pass, r: Pass)
    requires lo <= p < mid <= hi <= |w.deliveries| && Found(w, p, tag, lo, mid, q, r)
    ensures Found(w, p, tag, lo, hi, q, Store(r, mid, hi))
  {
    RowsJoin(lo, mid, hi, p);
    assert q.acked + RowsExcept(lo, p, mid) + Rows(mid, hi) == q.acked + (RowsExcept(lo, p, mid) + Rows(mid, hi));
  }

  lemma FoundRight(w: World, p: nat, tag: Outcome, lo: nat, mid: nat, hi: nat, q: Pass, r: Pass)
    requires lo <= mid <= p < hi <= |w.deliveries| && Found(w, p, tag, mid, hi, Store(q, lo, mid), r)
    ensures Found(w, p, tag, lo, hi, q, r)
  {
    RowsJoin(lo, mid, hi, p);
    assert q.acked + Rows(lo, mid) + RowsExcept(mid, p, hi) == q.acked + (Rows(lo, mid) + RowsExcept(mid, p, hi));
  }

  /** Once anything is committed, the bisection runs to the end and isolates exactly row `p`. */
  lemma {:induction false} FoundOnceAlive(w: World, p: nat, tag: Outcome, lo: nat, hi: nat, q: Pass, r: Pass)
    requires lo <= p < hi <= |w.deliveries| && RejectsOnly(w, p, tag) && q.committed > 0
    requires r == Bisect(w, lo, hi, q)
    ensures Found(w, p, tag, lo, hi, q, r)
    decreases hi - lo
  {
    if hi - lo == 1 {
      assert RowsExcept(lo, p, hi) == [];
    } else {
      var mid, q1 := lo + (hi - lo) / 2, FailWide(q, lo, hi);
      var r1 := Bisect(w, lo, mid, q1);
      if p < mid {
        FoundOnceAlive(w, p, tag, lo, mid, q1, r1);
        HealthyRangeStored(w, p, tag, mid, hi, r1);
        FoundLeft(w, p, tag, lo, mid, hi, q1, r1);
      } else {
        HealthyRangeStored(w, p, tag, lo, mid, q1);
        FoundOnceAlive(w, p, tag, mid, hi, r1, r);
        FoundRight(w, p, tag, lo, mid, hi, q1, r);
      }
    }
  }

  /** `r` stored every row of [0, m) but `p`, in a pass that had stored nothing before. */
  ghost predicate Isolated(w: World, p: nat, tag: Outcome, m: nat, r: Pass)
    requires p < m <= |w.deliveries|
  {
    && !ProbeExhausted(r.committed, r.attempts)
    && r.acked == RowsExcept(0, p, m) && r.alone == [p]
    && r.termed == if TermsRow(tag, p, w.deliveries[p]) then [p] else []
  }

  /** `r` ran into the probe limit, its last call being on `q` rows: if that was row p alone it is
      terminated exactly when tagged, otherwise no row was even tried alone. */
  ghost predicate GaveUp(p: nat, tag: Outcome, r: Pass, q: nat) {
    && r.committed == 0 && r.attempts == PROBE_LIMIT && r.commits == [] && r.acked == []
    && r.alone == (if q == 1 then [p] else [])
    && r.termed == (if q == 1 && tag.Poison? then [p] else [])
  }

  /** The size of the leftmost range after k splits of m rows. */
  function Halved(m: nat, k: nat): nat {
    if k == 0 then m else Halved(m / 2, k - 1)
  }

  lemma {:induction false} HalvedShrinks(m: nat, k: nat)
    ensures Halved(m, k) <= m
  {
    if k > 0 { HalvedShrinks(m / 2, k - 1); }
  }

  lemma HalvedSevenTimes(m: nat)
    ensures Halved(m, 7) == m / 128
  {
    var m1 := m / 2; var m2 := m1 / 2; var m3 := m2 / 2; var m4 := m3 / 2;
    var m5 := m4 / 2; var m6 := m5 / 2;
    assert Halved(m, 7) == Halved(m2, 5);
    assert Halved(m2, 5) == Halved(m4, 3);
    assert Halved(m4, 3) == Halved(m6, 1) == m6 / 2;
  }

  /** `a` calls were made, all of which failed on a range of more than one row. */
  function Descended(a: nat, calls: seq<Range>): Pass {
    FRESH.(attempts := a, calls := calls)
  }

  lemma {:induction false} RightOfEdge(w: World, p: nat, tag: Outcome, m: nat, a: nat, calls: seq<Range>, r: Pass)
    requires 2 <= m && m / 2 <= p < m <= |w.deliveries| && RejectsOnly(w, p, tag) && a < PROBE_LIMIT - 1
    requires r == Bisect(w, 0, m, Descended(a, calls))
    ensures Isolated(w, p, tag, m, r)
  {
    var mid, q1 := m / 2, Descended(a + 1, calls + [Range(0, m)]);
    var q2 := Store(q1, 0, mid);
    HealthyRangeStored(w, p, tag, 0, mid, q1);
    FoundOnceAlive(w, p, tag, mid, m, q2, r);
    FoundRight(w, p, tag, 0, mid, m, q1, r);
  }

  lemma LeftHalfIsolated(w: World, p: nat, tag: Outcome, m: nat, r1: Pass)
    requires p < m / 2 && m <= |w.deliveries| && Isolated(w, p, tag, m / 2, r1)
    ensures Isolated(w, p, tag, m, Store(r1, m / 2, m))
  {
    RowsJoin(0, m / 2, m, p);
  }

  /** The outcome of a pass over [0, m) whose left edge ends in a range of q rows. */
  ghost predicate EdgeOutcome(w: World, p: nat, tag: Outcome, m: nat, q: nat, r: Pass)
    requires p < m <= |w.deliveries|
  {
    if p >= q then Isolated(w, p, tag, m, r) else GaveUp(p, tag, r, q)
  }

  lemma {:induction false} EdgeOfEdge(w: World, p: nat, tag: Outcome, m: nat, a: nat, calls: seq<Range>, q: nat,
                                      r: Pass)
    requires p < m <= |w.deliveries| && RejectsOnly(w, p, tag) && a < PROBE_LIMIT && (m == 1 || a == 7)
    requires r == Bisect(w, 0, m, Descended(a, calls)) && q == Halved(m, 7 - a)
    ensures EdgeOutcome(w, p, tag, m, q, r)
  {
    if m == 1 {
      assert RowsExcept(0, p, m) == [];
      if a < 7 { HalvedShrinks(0, 6 - a); }
    }
  }

  lemma {:induction false} EdgeSplits(w: World, p: nat, tag: Outcome, m: nat, a: nat, calls: seq<Range>, r1: Pass)
    requires p < m <= |w.deliveries| && RejectsOnly(w, p, tag) && a < PROBE_LIMIT && m > 1
    requires r1 == Bisect(w, 0, m / 2, Descended(a + 1, calls + [Range(0, m)]))
    ensures Bisect(w, 0, m, Descended(a, calls)) == Bisect(w, m / 2, m, r1)
  {
  }

  /** What the left half makes of the whole, when row p is in it. */
  lemma {:induction false} LeftOfEdge(w: World, p: nat, tag: Outcome, m: nat, a: nat, calls: seq<Range>, q: nat,
                                      r1: Pass)
    requires p < m / 2 && m <= |w.deliveries| && RejectsOnly(w, p, tag) && a < PROBE_LIMIT
    requires r1 == Bisect(w, 0, m / 2, Descended(a + 1, calls + [Range(0, m)])) && EdgeOutcome(w, p, tag, m / 2, q, r1)
    ensures EdgeOutcome(w, p, tag, m, q, Bisect(w, 0, m, Descended(a, calls)))
  {
    EdgeSplits(w, p, tag, m, a, calls, r1);
    if p >= q {
      HealthyRangeStored(w, p, tag, m / 2, m, r1);
      LeftHalfIsolated(w, p, tag, m, r1);
    }
  }

  /** The descent along the left edge, after `a` calls that all failed. */
  lemma {:induction false} LeftEdge(w: World, p: nat, tag: Outcome, m: nat, a: nat, calls: seq<Range>, q: nat)
    requires p < m <= |w.deliveries| && RejectsOnly(w, p, tag) && a < PROBE_LIMIT && q == Halved(m, 7 - a)
    ensures EdgeOutcome(w, p, tag, m, q, Bisect(w, 0, m, Descended(a, calls)))
    decreases m
  {
    var r := Bisect(w, 0, m, Descended(a, calls));
    if m == 1 || a == 7 {
      EdgeOfEdge(w, p, tag, m, a, calls, q, r);
    } else if p < m / 2 {
      var more := calls + [Range(0, m)];
      LeftEdge(w, p, tag, m / 2, a + 1, more, q);
      LeftOfEdge(w, p, tag, m, a, calls, q, Bisect(w, 0, m / 2, Descended(a + 1, more)));
    } else {
      HalvedShrinks(m / 2, 6 - a);
      RightOfEdge(w, p, tag, m, a, calls, r);
    }
  }

  /** Exactly when one deterministic poison row is isolated: every other row commits if and only
      if the row does not sit in the first n/128 of the bundle. When it does, the pass gives up
      after eight failed calls, the last of which is on the row alone if n < 256, and then drops the
      row exactly if tagged; when it does not, the row is terminated if tagged, or if untagged
      but redelivered often enough and not the leftmost row. */
  lemma OnePoisonRow(w: World, p: nat, tag: Outcome)
    requires p < |w.deliveries| && RejectsOnly(w, p, tag)
    ensures var n, r := |w.deliveries|, Bisect(w, 0, |w.deliveries|, FRESH);
            if p >= n / 128 then
              && r.acked == RowsExcept(0, p, n) && r.alone == [p]
              && (r.termed == [p] <==> tag.Poison? || (p > 0 && w.deliveries[p] >= POISON_REDELIVERY_THRESHOLD))
            else
              && r.acked == [] && r.commits == [] && r.attempts == PROBE_LIMIT
              && r.alone == (if n < 256 then [p] else [])
              && r.termed == (if n < 256 && tag.Poison? then [p] else [])
  {
    HalvedSevenTimes(|w.deliveries|);
    LeftEdge(w, p, tag, |w.deliveries|, 0, [], |w.deliveries| / 128);
  }
}
