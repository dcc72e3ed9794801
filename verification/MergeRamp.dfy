/** The maintainer's merge pass: a per-call file cap that ramps up on commits, halves on a graceful
    out-of-memory error and never leaves the ceiling of the cycle. */
module MergeRamp {

  const RAMP_START: nat := 32
  const MIN_FILES: nat := 1
  const HARD_CEILING: nat := 1000
  const FALLBACK: nat := 256

  function Min(a: int, b: int): int { if a < b then a else b }
  function Max(a: int, b: int): int { if a > b then a else b }

  /** mergeCeiling: `pin` is MergeMaxFilesPerCall, `mem` the parsed memory limit and `avg` the
      largest average file size (0 if unknown). */
  function Ceiling(pin: int, mem: int, avg: int): int {
    if pin > 0 then Min(pin, HARD_CEILING)
    else if mem <= 0 || avg <= 0 then FALLBACK
    else Min(Max(mem / 2 / avg, MIN_FILES), HARD_CEILING)
  }

  /** How one merge sub-call ends, after its own retries. */
  datatype SubCall = Merged | NothingLeft | OutOfMemory | Failed

  /** One cycle's surroundings: its ceiling, the answer to the i-th sub-call at a given cap, and
      after how many sub-calls the time budget is spent or the context done. */
  datatype Cycle = Cycle(ceiling: int, answer: (nat, int) -> SubCall, stopAfter: nat)

  datatype End = Stopped | Drained | BackedOff | Broken

  datatype Pass = Pass(ramp: int, merged: nat, caps: seq<int>, end: End)

  function CapFor(c: Cycle, ramp: int): int {
    Min(Max(ramp, MIN_FILES), c.ceiling)
  }

  /** The value-level meaning of the loop in runBoundedMerge. */
  function Passes(c: Cycle, ramp: int, merged: nat): Pass
    decreases c.stopAfter - merged
  {
    if merged >= c.stopAfter then Pass(ramp, merged, [], Stopped)
    else
      var cap := CapFor(c, ramp);
      match c.answer(merged, cap)
      case Merged =>
        var rest := Passes(c, Min(cap * 2, c.ceiling), merged + 1);
        rest.(caps := [cap] + rest.caps)
      case NothingLeft => Pass(ramp, merged, [cap], Drained)
      case OutOfMemory => Pass(Max(cap / 2, MIN_FILES), merged, [cap], BackedOff)
      case Failed => Pass(ramp, merged, [cap], Broken)
  }

  /** A cycle's pass, including the initial clamp to its ceiling. */
  function MergePass(c: Cycle, ramp: int): Pass {
    Passes(c, Min(ramp, c.ceiling), 0)
  }

  class Maintainer {
    var mergeRamp: int
    const pin: int
    const mem: int

    constructor (pin: int, mem: int)
      ensures this.pin == pin && this.mem == mem && mergeRamp == RAMP_START
    {
      this.pin, this.mem := pin, mem;
      mergeRamp := RAMP_START;
    }

    method RunBoundedMerge(avg: int, answer: (nat, int) -> SubCall, stopAfter: nat)
      returns (merged: nat, caps: seq<int>, end: End)
      modifies this
      ensures Pass(mergeRamp, merged, caps, end)
              == MergePass(Cycle(Ceiling(pin, mem, avg), answer, stopAfter), old(mergeRamp))
    {
      var ceiling := Ceiling(pin, mem, avg);
      ghost var c := Cycle(ceiling, answer, stopAfter);
      mergeRamp := Min(mergeRamp, ceiling);
      merged, caps := 0, [];
      while true
        invariant merged <= stopAfter
        invariant var rest := Passes(c, mergeRamp, merged);
                  MergePass(c, old(mergeRamp)) == rest.(caps := caps + rest.caps)
        decreases stopAfter - merged
      {
        if merged >= stopAfter {
          end := Stopped;
          return;
        }
        var filesCap := Min(Max(mergeRamp, MIN_FILES), ceiling);
        var result := answer(merged, filesCap);
        caps := caps + [filesCap];
        match result {
          case OutOfMemory =>
            mergeRamp := Max(filesCap / 2, MIN_FILES);
            end := BackedOff;
            return;
          case Failed =>
            end := Broken;
            return;
          case NothingLeft =>
            end := Drained;
            return;
          case Merged =>
            merged := merged + 1;
            mergeRamp := Min(filesCap * 2, ceiling);
        }
      }
    }
  }

  // ----- Cap arithmetic -----

  ghost predicate Sane(c: Cycle) {
    1 <= c.ceiling <= HARD_CEILING
  }

  lemma CeilingIsSane(pin: int, mem: int, avg: int)
    ensures 1 <= Ceiling(pin, mem, avg) <= HARD_CEILING
  {
  }

  /** Every sub-call's cap is at least one and at most the ceiling, and the ramp left for the next
      cycle is positive and at most the ceiling too. */
  lemma {:induction false} CapsInRange(c: Cycle, ramp: int, merged: nat, r: Pass)
    requires Sane(c) && 1 <= ramp <= c.ceiling && r == Passes(c, ramp, merged)
    ensures forall i :: 0 <= i < |r.caps| ==> 1 <= r.caps[i] <= c.ceiling
    ensures 1 <= r.ramp <= c.ceiling
    decreases c.stopAfter - merged
  {
    if merged < c.stopAfter && c.answer(merged, CapFor(c, ramp)).Merged? {
      var next := Min(CapFor(c, ramp) * 2, c.ceiling);
      CapsInRange(c, next, merged + 1, Passes(c, next, merged + 1));
    }
  }

  /** With a derived ceiling a sub-call rewrites at most half the memory limit, unless it is
      already down to a single file. */
  lemma DerivedCapFits(mem: int, avg: int, c: Cycle, ramp: int, i: nat)
    requires mem > 0 && avg > 0 && ramp >= 1 && c.ceiling == Ceiling(0, mem, avg)
    requires i < |MergePass(c, ramp).caps|
    ensures var cap := MergePass(c, ramp).caps[i];
            1 <= cap <= HARD_CEILING && (cap == 1 || avg * cap <= mem / 2)
  {
    CapsInRange(c, Min(ramp, c.ceiling), 0, MergePass(c, ramp));
    var cap := MergePass(c, ramp).caps[i];
    if cap > 1 {
      var half := mem / 2;
      assert cap <= half / avg;
      QuotientFits(half, avg, cap);
    }
  }

  lemma QuotientFits(m: int, avg: int, cap: int)
    requires m >= 0 && avg > 0 && 0 <= cap <= m / avg
    ensures avg * cap <= m
  {
    assert avg * cap <= avg * (m / avg);
  }

  lemma QuotientMonotone(m: int, n: int, avg: int)
    requires 0 <= m <= n && avg > 0
    ensures m / avg <= n / avg
  {
    var a, b := m / avg, n / avg;
    assert avg * a <= m && n < avg * (b + 1);
    if a > b { TimesMonotone(avg, b + 1, a); }
  }

  lemma TimesMonotone(k: int, a: int, b: int)
    requires k > 0 && a <= b
    ensures k * a <= k * b
  {
  }

  /** A larger memory limit never lowers the ceiling, except exactly by becoming known: from no
      limit at all to one whose derived ceiling is below the fallback. */
  lemma CeilingMonotone(pin: int, mem: int, more: int, avg: int)
    requires mem <= more
    ensures Ceiling(pin, mem, avg) <= Ceiling(pin, more, avg)
            <==> (pin > 0 || avg <= 0 || mem > 0 || more <= 0 || more / 2 / avg >= FALLBACK)
  {
    if pin <= 0 && avg > 0 && mem > 0 {
      QuotientMonotone(mem / 2, more / 2, avg);
    }
  }

  // ----- Convergence -----

  /** Sub-calls run out of memory only above K files and commit only up to K files. */
  ghost predicate Threshold(c: Cycle, K: int) {
    forall i: nat, cap: int ::
      && (c.answer(i, cap).OutOfMemory? ==> cap > K)
      && (c.answer(i, cap).Merged? ==> cap <= K)
  }

  ghost predicate AllSane(cs: seq<Cycle>) {
    forall j :: 0 <= j < |cs| ==> Sane(cs[j])
  }

  ghost predicate Steady(cs: seq<Cycle>, K: int) {
    K >= 1 && AllSane(cs) && forall j :: 0 <= j < |cs| ==> Threshold(cs[j], K)
  }

  /** The ramp before cycle j of a fresh process. */
  function RampAt(cs: seq<Cycle>, j: nat): int
    requires j <= |cs|
  {
    if j == 0 then RAMP_START else MergePass(cs[j - 1], RampAt(cs, j - 1)).ramp
  }

  function PassAt(cs: seq<Cycle>, j: nat): Pass
    requires j < |cs|
  {
    MergePass(cs[j], RampAt(cs, j))
  }

  /** The cycle ran out of memory before it merged anything. */
  predicate IsWaste(r: Pass) {
    r.end.BackedOff? && r.merged == 0
  }

  /** Cycle j was wasted. */
  predicate Wasted(cs: seq<Cycle>, j: nat)
    requires j < |cs|
  {
    IsWaste(PassAt(cs, j))
  }

  function WastedBefore(cs: seq<Cycle>, j: nat): nat
    requires j <= |cs|
  {
    if j == 0 then 0 else WastedBefore(cs, j - 1) + if Wasted(cs, j - 1) then 1 else 0
  }

  ghost predicate NoProgress(cs: seq<Cycle>, lo: nat, hi: nat)
    requires hi <= |cs|
  {
    forall j :: lo <= j < hi ==> PassAt(cs, j).merged == 0
  }

  /** The cycles of one process: the pin and the memory limit hold for its life, the average file
      size is looked up anew each cycle. */
  ghost predicate OfProcess(cs: seq<Cycle>, pin: int, mem: int, avgs: seq<int>) {
    |cs| == |avgs| && forall j :: 0 <= j < |cs| ==> cs[j].ceiling == Ceiling(pin, mem, avgs[j])
  }

  /** Whatever sub-calls answer, the ramp stays positive and within the hard ceiling. */
  lemma {:induction false} RampPositive(cs: seq<Cycle>, j: nat)
    requires AllSane(cs) && j <= |cs|
    ensures 1 <= RampAt(cs, j) <= HARD_CEILING
  {
    if j > 0 {
      var c, ramp := cs[j - 1], RampAt(cs, j - 1);
      RampPositive(cs, j - 1);
      CapsInRange(c, Min(ramp, c.ceiling), 0, MergePass(c, ramp));
    }
  }

  lemma ProcessIsSane(cs: seq<Cycle>, pin: int, mem: int, avgs: seq<int>)
    requires OfProcess(cs, pin, mem, avgs)
    ensures AllSane(cs)
  {
    forall j | 0 <= j < |cs| ensures Sane(cs[j]) {
      CeilingIsSane(pin, mem, avgs[j]);
    }
  }

  /** Across all cycles of a process, whatever its sub-calls answer: every cap is in 1..1000 and at
      most the ceiling of its cycle, and where the ceiling is derived it is 1 or fits half the limit. */
  lemma EveryCapInRange(cs: seq<Cycle>, pin: int, mem: int, avgs: seq<int>, j: nat, i: nat)
    requires OfProcess(cs, pin, mem, avgs) && j < |cs| && i < |PassAt(cs, j).caps|
    ensures var cap := PassAt(cs, j).caps[i];
            && 1 <= cap <= cs[j].ceiling <= HARD_CEILING
            && (pin <= 0 && mem > 0 && avgs[j] > 0 ==> cap == 1 || avgs[j] * cap <= mem / 2)
  {
    var c, ramp := cs[j], RampAt(cs, j);
    ProcessIsSane(cs, pin, mem, avgs);
    RampPositive(cs, j);
    CapsInRange(c, Min(ramp, c.ceiling), 0, MergePass(c, ramp));
    if pin <= 0 && mem > 0 && avgs[j] > 0 { DerivedCapFits(mem, avgs[j], c, ramp, i); }
  }

  /** What a pass does to the ramp under a memory threshold, once it started at or below `ramp`. */
  lemma {:induction false} PassUnderThreshold(c: Cycle, K: int, ramp: int, merged: nat, r: Pass)
    requires Sane(c) && Threshold(c, K) && K >= 1 && 1 <= ramp && r == Passes(c, ramp, merged)
    ensures r.merged >= merged && r.ramp >= 1
    ensures r.merged == merged ==> r.ramp <= ramp
    ensures r.merged == merged && r.end.BackedOff? ==> K < ramp && 2 * r.ramp <= ramp
    ensures r.merged > merged ==> r.ramp <= 2 * K
    decreases c.stopAfter - merged
  {
    if merged < c.stopAfter {
      var cap := CapFor(c, ramp);
      if c.answer(merged, cap).Merged? {
        var next := Min(cap * 2, c.ceiling);
        PassUnderThreshold(c, K, next, merged + 1, Passes(c, next, merged + 1));
      }
    }
  }

  lemma CycleUnderThreshold(c: Cycle, K: int, ramp: int)
    requires Sane(c) && Threshold(c, K) && K >= 1 && 1 <= ramp
    ensures var r := MergePass(c, ramp);
            && r.ramp >= 1
            && (r.merged == 0 ==> r.ramp <= ramp)
            && (r.merged == 0 && r.end.BackedOff? ==> K < ramp && 2 * r.ramp <= ramp)
            && (r.merged > 0 ==> r.ramp <= 2 * K)
  {
    PassUnderThreshold(c, K, Min(ramp, c.ceiling), 0, MergePass(c, ramp));
  }

  function Halvings(n: nat): int {
    if n == 0 then RAMP_START else Halvings(n - 1) / 2
  }

  /** From a fresh process, at most five cycles are wasted before the first one that merges. */
  lemma {:induction false} AtMostFiveWasted(cs: seq<Cycle>, K: int, n: nat)
    requires Steady(cs, K) && n <= |cs| && NoProgress(cs, 0, n)
    ensures WastedBefore(cs, n) <= 5 && RampAt(cs, n) <= Halvings(WastedBefore(cs, n))
  {
    if n > 0 {
      AtMostFiveWasted(cs, K, n - 1);
      RampPositive(cs, n - 1);
      CycleUnderThreshold(cs[n - 1], K, RampAt(cs, n - 1));
      assert PassAt(cs, n - 1).merged == 0;
      assert Halvings(1) == 16 && Halvings(2) == 8;
      assert Halvings(3) == 4 && Halvings(4) == 2;
      assert Halvings(5) == 1;
    }
  }

  /** Five is reached: where only single files fit, the caps 32, 16, 8, 4 and 2 all run out of memory. */
  lemma FiveCanBeWasted() returns (cs: seq<Cycle>, K: int)
    ensures Steady(cs, K) && |cs| == 5 && NoProgress(cs, 0, 5) && WastedBefore(cs, 5) == 5
  {
    K := 1;
    var c := Cycle(HARD_CEILING, (i: nat, cap: int) => if cap <= 1 then Merged else OutOfMemory, 1);
    cs := [c, c, c, c, c];
    assert RampAt(cs, 0) == 32 && Wasted(cs, 0);
    assert RampAt(cs, 1) == 16 && Wasted(cs, 1);
    assert RampAt(cs, 2) == 8 && Wasted(cs, 2);
    assert RampAt(cs, 3) == 4 && Wasted(cs, 3);
    assert RampAt(cs, 4) == 2 && Wasted(cs, 4);
    assert WastedBefore(cs, 1) == 1;
    assert WastedBefore(cs, 2) == 2;
    assert WastedBefore(cs, 3) == 3;
    assert WastedBefore(cs, 4) == 4;
  }

  /** From the first merge on, the ramp never exceeds twice the threshold at a cycle boundary. */
  lemma {:induction false} RampAfterProgress(cs: seq<Cycle>, K: int, p: nat, j: nat)
    requires Steady(cs, K) && p < j <= |cs| && PassAt(cs, p).merged > 0
    ensures RampAt(cs, j) <= 2 * K
    decreases j
  {
    RampPositive(cs, j - 1);
    CycleUnderThreshold(cs[j - 1], K, RampAt(cs, j - 1));
    if p < j - 1 { RampAfterProgress(cs, K, p, j - 1); }
  }

  /** Once at or below the threshold the ramp stays there until something merges. */
  lemma {:induction false} LowUntilProgress(cs: seq<Cycle>, K: int, i: nat, j: nat)
    requires Steady(cs, K) && i <= j <= |cs| && RampAt(cs, i) <= K && NoProgress(cs, i, j)
    ensures RampAt(cs, j) <= K
    decreases j
  {
    if i < j {
      LowUntilProgress(cs, K, i, j - 1);
      RampPositive(cs, j - 1);
      CycleUnderThreshold(cs[j - 1], K, RampAt(cs, j - 1));
      assert PassAt(cs, j - 1).merged == 0;
    }
  }

  /** After the first merge, between any two wasted cycles some cycle merges: in particular never
      two wasted cycles in a row. */
  lemma WastedCyclesAreSeparated(cs: seq<Cycle>, K: int, p: nat, i: nat, j: nat)
    requires Steady(cs, K) && p < i < j < |cs| && PassAt(cs, p).merged > 0
    requires Wasted(cs, i) && Wasted(cs, j)
    ensures exists q :: i < q < j && PassAt(cs, q).merged > 0
  {
    RampAfterProgress(cs, K, p, i);
    RampPositive(cs, i);
    CycleUnderThreshold(cs[i], K, RampAt(cs, i));
    if NoProgress(cs, i + 1, j) {
      LowUntilProgress(cs, K, i + 1, j);
      RampPositive(cs, j);
      CycleUnderThreshold(cs[j], K, RampAt(cs, j));
    } else {
      var q :| i + 1 <= q < j && PassAt(cs, q).merged != 0;
      assert i < q < j && PassAt(cs, q).merged > 0;
    }
  }

  // ----- Exactly when a later cycle can be wasted -----

  /** Whatever its sub-calls answer under the threshold, a cycle is not wasted: exactly when the cap
      it starts with is within the threshold. */
  lemma SafeStartExactly(ceiling: int, K: int, ramp: int)
    requires 1 <= ceiling <= HARD_CEILING && K >= 1 && ramp >= 1
    ensures (forall c: Cycle :: c.ceiling == ceiling && Threshold(c, K) ==> !IsWaste(MergePass(c, ramp)))
            <==> Min(ramp, ceiling) <= K
  {
    if Min(ramp, ceiling) <= K {
      forall c: Cycle | c.ceiling == ceiling && Threshold(c, K) ensures !IsWaste(MergePass(c, ramp)) {
        PassUnderThreshold(c, K, Min(ramp, ceiling), 0, MergePass(c, ramp));
      }
    } else {
      var c := Cycle(ceiling, (i: nat, cap: int) => if cap <= K then Merged else OutOfMemory, 1);
      assert Threshold(c, K) && IsWaste(MergePass(c, ramp));
    }
  }

  /** The ramp a merging pass leaves: twice the last cap that merged, within the ceiling, or at most
      the threshold if it then ran out of memory. */
  lemma {:induction false} RampLeftBehind(c: Cycle, K: int, ramp: int, merged: nat, r: Pass)
    requires Sane(c) && Threshold(c, K) && K >= 1 && 1 <= ramp && r == Passes(c, ramp, merged)
    ensures r.merged >= merged && |r.caps| >= r.merged - merged
    ensures r.merged == merged && !r.end.BackedOff? ==> r.ramp == ramp
    ensures r.merged > merged ==>
              var last := r.caps[r.merged - merged - 1];
              1 <= last <= K && if r.end.BackedOff? then r.ramp <= K else r.ramp == Min(2 * last, c.ceiling)
    decreases c.stopAfter - merged
  {
    if merged < c.stopAfter {
      var cap := CapFor(c, ramp);
      if c.answer(merged, cap).Merged? {
        var next := Min(cap * 2, c.ceiling);
        var rest := Passes(c, next, merged + 1);
        RampLeftBehind(c, K, next, merged + 1, rest);
        PassUnderThreshold(c, K, next, merged + 1, rest);
        assert r.caps == [cap] + rest.caps;
      }
    }
  }

  /** The last cap that merged in a pass that merged anything. */
  function LastMergedCap(r: Pass): int {
    if 0 < r.merged <= |r.caps| then r.caps[r.merged - 1] else 0
  }

  /** A merging pass leaves the ramp above the threshold if and only if it did not run out of memory
      and doubling its last cap, within the ceiling, goes above it. */
  lemma MergeLeavesHighExactly(c: Cycle, K: int, ramp: int)
    requires Sane(c) && Threshold(c, K) && K >= 1 && 1 <= ramp && MergePass(c, ramp).merged > 0
    ensures var r := MergePass(c, ramp);
            r.ramp > K <==> !r.end.BackedOff? && Min(2 * LastMergedCap(r), c.ceiling) > K
  {
    RampLeftBehind(c, K, Min(ramp, c.ceiling), 0, MergePass(c, ramp));
  }

  lemma IdleCycleRamp(c: Cycle, K: int, ramp: int)
    requires Sane(c) && Threshold(c, K) && 1 <= ramp <= 2 * K && MergePass(c, ramp).merged == 0
    ensures var r := MergePass(c, ramp);
            r.ramp > K <==> ramp > K && c.ceiling > K && !IsWaste(r)
  {
    CycleUnderThreshold(c, K, ramp);
    RampLeftBehind(c, K, Min(ramp, c.ceiling), 0, MergePass(c, ramp));
  }

  /** No cycle in (q, j) was wasted or had a ceiling within the threshold. */
  ghost predicate Untouched(cs: seq<Cycle>, K: int, q: nat, j: nat)
    requires j <= |cs|
  {
    forall i :: q < i < j ==> !Wasted(cs, i) && cs[i].ceiling > K
  }

  /** With q the last merging cycle before j, the ramp is above the threshold before cycle j if and
      only if q left it there and no cycle since has brought it down. */
  lemma {:induction false} HighUntilTouched(cs: seq<Cycle>, K: int, q: nat, j: nat)
    requires Steady(cs, K) && q < j <= |cs| && PassAt(cs, q).merged > 0 && NoProgress(cs, q + 1, j)
    ensures RampAt(cs, j) > K <==> RampAt(cs, q + 1) > K && Untouched(cs, K, q, j)
    decreases j
  {
    if q + 1 < j {
      HighUntilTouched(cs, K, q, j - 1);
      RampAfterProgress(cs, K, q, j - 1);
      RampPositive(cs, j - 1);
      assert PassAt(cs, j - 1).merged == 0;
      IdleCycleRamp(cs[j - 1], K, RampAt(cs, j - 1));
    }
  }

  /** Exactly when a cycle after the first merge can run out of memory without merging. With q the
      last merging cycle before j, no answers under the threshold waste cycle j, for a given ceiling,
      if and only if that ceiling is within the threshold, or q ran out of memory in the end, or twice
      its last merged cap is within the threshold or its ceiling is, or a cycle since was wasted or
      had a ceiling within the threshold. */
  lemma WastedAgainExactly(cs: seq<Cycle>, K: int, q: nat, j: nat, ceiling: int)
    requires Steady(cs, K) && q < j <= |cs| && PassAt(cs, q).merged > 0 && NoProgress(cs, q + 1, j)
    requires 1 <= ceiling <= HARD_CEILING
    ensures (forall c: Cycle :: c.ceiling == ceiling && Threshold(c, K) ==> !IsWaste(MergePass(c, RampAt(cs, j))))
            <==> || ceiling <= K
                 || PassAt(cs, q).end.BackedOff?
                 || Min(2 * LastMergedCap(PassAt(cs, q)), cs[q].ceiling) <= K
                 || !Untouched(cs, K, q, j)
  {
    RampPositive(cs, q);
    RampPositive(cs, j);
    MergeLeavesHighExactly(cs[q], K, RampAt(cs, q));
    HighUntilTouched(cs, K, q, j);
    SafeStartExactly(ceiling, K, RampAt(cs, j));
  }

  /** Running out of memory again is possible: a merge at the threshold followed by an empty
      sub-call leaves the ramp above it, and the next cycle is wasted. */
  lemma WastedAgainIsPossible() returns (cs: seq<Cycle>, K: int)
    ensures Steady(cs, K) && |cs| == 2 && PassAt(cs, 0).merged > 0 && Wasted(cs, 1)
  {
    K := RAMP_START;
    var first := Cycle(HARD_CEILING,
                       (i: nat, cap: int) => if i == 0 && cap <= RAMP_START then Merged else NothingLeft, 5);
    var second := Cycle(HARD_CEILING, (i: nat, cap: int) => if cap <= RAMP_START then Merged else OutOfMemory, 5);
    cs := [first, second];
    assert RampAt(cs, 0) == 32;
    assert Passes(first, 64, 1) == Pass(64, 1, [64], Drained);
    assert PassAt(cs, 0).merged == 1;
    assert RampAt(cs, 1) == 64;
  }
}
