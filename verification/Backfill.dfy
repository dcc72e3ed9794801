/** Registering externally written parquet files: grouped by prefix, in bounded batches, each its own
    transaction and snapshot, and resumable after a failure at any point. */
module Backfill {

  const PER_FILE_BATCH: nat := 1000
  const FILES_PER_SNAPSHOT: nat := 2000

  // ----- Paths -----

  predicate EndsWith(s: string, suffix: string) {
    |suffix| <= |s| && s[|s| - |suffix|..] == suffix
  }

  predicate IsParquet(f: string) {
    EndsWith(f, ".parquet")
  }

  /** Everything up to and including the last '/'. */
  function PrefixOf(f: string): string {
    if f == [] then [] else if f[|f| - 1] == '/' then f else PrefixOf(f[..|f| - 1])
  }

  /** The parquet files of the listing that are not in `skip` and whose prefix is in `prefixes`. */
  function Select(files: seq<string>, skip: set<string>, prefixes: set<string>): seq<string> {
    if files == [] then []
    else
      var f := files[|files| - 1];
      Select(files[..|files| - 1], skip, prefixes)
      + if IsParquet(f) && f !in skip && PrefixOf(f) in prefixes then [f] else []
  }

  /** The parquet files of the listing that are not in `skip`. */
  function Fresh(files: seq<string>, skip: set<string>): seq<string> {
    if files == [] then []
    else
      var f := files[|files| - 1];
      Fresh(files[..|files| - 1], skip) + if IsParquet(f) && f !in skip then [f] else []
  }

  /** Prefixes of parquet files, in the order they are first seen. */
  function Order(files: seq<string>): seq<string> {
    if files == [] then []
    else
      var f, before := files[|files| - 1], Order(files[..|files| - 1]);
      if IsParquet(f) && PrefixOf(f) !in before then before + [PrefixOf(f)] else before
  }

  ghost predicate Distinct(s: seq<string>) {
    forall i, j :: 0 <= i < j < |s| ==> s[i] != s[j]
  }

  function Members(s: seq<string>): set<string> {
    set x | x in s
  }

  lemma {:induction false} OrderDistinct(files: seq<string>)
    ensures Distinct(Order(files))
    ensures forall i :: 0 <= i < |files| && IsParquet(files[i]) ==> PrefixOf(files[i]) in Order(files)
  {
    if files != [] {
      var init, f := files[..|files| - 1], files[|files| - 1];
      OrderDistinct(init);
      var before, after := Order(init), Order(files);
      assert forall p :: p in before ==> p in after;
      forall i | 0 <= i < |files| && IsParquet(files[i]) ensures PrefixOf(files[i]) in after {
        if i < |init| { assert files[i] == init[i]; } else { assert files[i] == f; }
      }
    }
  }

  method GroupParquetByPrefix(files: seq<string>) returns (groups: map<string, seq<string>>, order: seq<string>)
    ensures order == Order(files) && groups.Keys == Members(order)
    ensures forall p :: p in groups ==> groups[p] == Select(files, {}, {p}) && groups[p] != []
  {
    groups, order := map[], [];
    for i := 0 to |files|
      invariant Listed(files[..i], groups, order)
    {
      var f := files[i];
      ListedNext(files[..i], f, groups, order);
      assert files[..i + 1] == files[..i] + [f];
      if !IsParquet(f) {
        continue;
      }
      var prefix := PrefixOf(f);
      if prefix !in groups {
        order := order + [prefix];
      }
      groups := groups[prefix := GroupOf(groups, prefix) + [f]];
    }
    assert files[..|files|] == files;
  }

  ghost predicate Listed(files: seq<string>, groups: map<string, seq<string>>, order: seq<string>) {
    order == Order(files) && groups.Keys == Members(order) && Grouped(files, groups)
  }

  lemma ListedNext(files: seq<string>, f: string, groups: map<string, seq<string>>, order: seq<string>)
    requires Listed(files, groups, order)
    ensures !IsParquet(f) ==> Listed(files + [f], groups, order)
    ensures var p := PrefixOf(f);
            IsParquet(f) ==> Listed(files + [f], groups[p := GroupOf(groups, p) + [f]],
                                    if p in groups then order else order + [p])
  {
    GroupedNext(files, f, groups);
    OrderNext(files, f);
  }

  lemma OrderNext(files: seq<string>, f: string)
    ensures var before := Order(files);
            Order(files + [f])
            == if IsParquet(f) && PrefixOf(f) !in Members(before) then before + [PrefixOf(f)] else before
    ensures Members(Order(files) + [PrefixOf(f)]) == Members(Order(files)) + {PrefixOf(f)}
  {
    assert (files + [f])[..|files|] == files;
  }

  function GroupOf(groups: map<string, seq<string>>, p: string): seq<string> {
    if p in groups then groups[p] else []
  }

  ghost predicate Grouped(files: seq<string>, groups: map<string, seq<string>>) {
    forall p :: GroupOf(groups, p) == Select(files, {}, {p}) && (p in groups ==> groups[p] != [])
  }

  lemma SelectNext(files: seq<string>, f: string, skip: set<string>, prefixes: set<string>)
    ensures Select(files + [f], skip, prefixes)
            == Select(files, skip, prefixes) + if IsParquet(f) && f !in skip && PrefixOf(f) in prefixes then [f] else []
  {
    assert (files + [f])[..|files|] == files;
  }

  lemma GroupedNext(files: seq<string>, f: string, groups: map<string, seq<string>>)
    requires Grouped(files, groups)
    ensures Grouped(files + [f],
                    if IsParquet(f) then groups[PrefixOf(f) := GroupOf(groups, PrefixOf(f)) + [f]] else groups)
  {
    forall q
      ensures Select(files + [f], {}, {q})
              == Select(files, {}, {q}) + if IsParquet(f) && q == PrefixOf(f) then [f] else []
    {
      SelectNext(files, f, {}, {q});
    }
  }

  // ----- The plan of a run -----

  function Chunks(s: seq<string>, n: nat): seq<seq<string>>
    requires n > 0
    decreases |s|
  {
    if s == [] then [] else if |s| <= n then [s] else [s[..n]] + Chunks(s[n..], n)
  }

  function Flat(bs: seq<seq<string>>): seq<string> {
    if bs == [] then [] else bs[0] + Flat(bs[1..])
  }

  /** The files of a group that the catalog does not track yet. */
  function NewOnly(group: seq<string>, existing: set<string>): seq<string> {
    if group == [] then []
    else NewOnly(group[..|group| - 1], existing) + if group[|group| - 1] in existing then [] else [group[|group| - 1]]
  }

  /** The batches of one prefix: nothing if it is fully registered, the whole list if it is wholly
      new, otherwise only the new files, in smaller batches. */
  function BatchesOf(group: seq<string>, existing: set<string>): seq<seq<string>> {
    var newFiles := NewOnly(group, existing);
    if newFiles == [] then []
    else if |newFiles| == |group| then Chunks(group, FILES_PER_SNAPSHOT)
    else Chunks(newFiles, PER_FILE_BATCH)
  }

  /** The concatenation of the first i of the given lists. */
  function Join<T>(lists: seq<seq<T>>, i: nat): seq<T>
    requires i <= |lists|
  {
    if i == 0 then [] else Join(lists, i - 1) + lists[i - 1]
  }

  function SizeUpTo(lists: seq<seq<string>>, i: nat): nat
    requires i <= |lists|
  {
    if i == 0 then 0 else SizeUpTo(lists, i - 1) + |lists[i - 1]|
  }

  lemma {:induction false} SizeAgrees(a: seq<seq<string>>, b: seq<seq<string>>, i: nat)
    requires i <= |a| && a <= b
    ensures SizeUpTo(a, i) == SizeUpTo(b, i)
  {
    if i > 0 { SizeAgrees(a, b, i - 1); }
  }

  lemma {:induction false} SizeJoins(a: seq<seq<string>>, b: seq<seq<string>>, i: nat)
    requires i <= |b|
    ensures SizeUpTo(a + b, |a| + i) == SizeUpTo(a, |a|) + SizeUpTo(b, i)
  {
    if i > 0 { SizeJoins(a, b, i - 1); } else { SizeAgrees(a, a + b, |a|); }
  }

  lemma {:induction false} FlatSize(bs: seq<seq<string>>)
    ensures |Flat(bs)| == SizeUpTo(bs, |bs|)
  {
    if bs != [] {
      FlatSize(bs[1..]);
      assert bs == [bs[0]] + bs[1..];
      SizeJoins([bs[0]], bs[1..], |bs| - 1);
    }
  }

  lemma {:induction false} SizeIsLength(lists: seq<seq<string>>, i: nat)
    requires i <= |lists|
    ensures SizeUpTo(lists, i) == |Join(lists, i)|
  {
    if i > 0 { SizeIsLength(lists, i - 1); }
  }

  /** Per prefix, its parquet files that are not in `skip`. */
  function GroupsIn(files: seq<string>, skip: set<string>, order: seq<string>): seq<seq<string>> {
    seq(|order|, i requires 0 <= i < |order| => Select(files, skip, {order[i]}))
  }

  function BatchesPer(groups: seq<seq<string>>, existing: set<string>): seq<seq<seq<string>>> {
    seq(|groups|, i requires 0 <= i < |groups| => BatchesOf(groups[i], existing))
  }

  /** The transactions a run attempts, in order; a run that fails commits a prefix of them. */
  function Plan(files: seq<string>, existing: set<string>): seq<seq<string>> {
    var groups := GroupsIn(files, {}, Order(files));
    Join(BatchesPer(groups, existing), |groups|)
  }

  /** Where a batch's transaction fails, if it does; in every such case nothing of it is kept. */
  datatype Fault = NoFault | AtBegin | AtCall(file: nat) | AtCommit

  /** A run in progress: the catalog's snapshots, the totals it reports, the number of transactions
      committed, and whether it is still going. */
  datatype Run = Run(snapshots: seq<seq<string>>, registered: nat, skipped: nat, done: nat, ok: bool)

  function Start(snapshots: seq<seq<string>>): Run {
    Run(snapshots, 0, 0, 0, true)
  }

  /** One batch's transaction: committed as one snapshot, or nothing and the run stops. */
  function Transact(r: Run, batch: seq<string>, fault: nat -> Fault): Run {
    if fault(r.done).NoFault? then
      r.(snapshots := r.snapshots + [batch], registered := r.registered + |batch|, done := r.done + 1)
    else r.(ok := false)
  }

  /** The transactions of a plan from its k-th batch on. */
  function RunBatches(r: Run, plan: seq<seq<string>>, k: nat, fault: nat -> Fault): Run
    requires k <= |plan|
    decreases |plan| - k
  {
    if k == |plan| || !r.ok then r else RunBatches(Transact(r, plan[k], fault), plan, k + 1, fault)
  }

  /** The body of Backfill's loop: one prefix. Its tracked files count as skipped unless it fails. */
  function RunGroup(r: Run, group: seq<string>, existing: set<string>, fault: nat -> Fault): Run {
    var newFiles := NewOnly(group, existing);
    var r' := RunBatches(r, BatchesOf(group, existing), 0, fault);
    if r'.ok && |newFiles| <= |group| then r'.(skipped := r'.skipped + (|group| - |newFiles|)) else r'
  }

  function RunGroups(r: Run, groups: seq<seq<string>>, i: nat, existing: set<string>, fault: nat -> Fault): Run
    requires i <= |groups|
    decreases |groups| - i
  {
    if i == |groups| || !r.ok then r
    else RunGroups(RunGroup(r, groups[i], existing, fault), groups, i + 1, existing, fault)
  }

  class Catalog {
    var run: Run

    constructor ()
      ensures run == Start([])
    {
      run := Start([]);
    }

    /** Registers the list in batches of FILES_PER_SNAPSHOT, one call per batch. `fault(b)` is the
        fate of the run's b-th transaction. */
    method RegisterListed(files: seq<string>, fault: nat -> Fault)
      requires run.ok
      modifies this
      ensures run == RunBatches(old(run), Chunks(files, FILES_PER_SNAPSHOT), 0, fault)
    {
      var i := 0;
      ghost var plan, k := Chunks(files, FILES_PER_SNAPSHOT), 0;
      while i < |files|
        invariant i <= |files| && k <= |plan| && run.ok
        invariant plan[k..] == Chunks(files[i..], FILES_PER_SNAPSHOT)
        invariant RunBatches(run, plan, k, fault) == RunBatches(old(run), plan, 0, fault)
      {
        var end := if i + FILES_PER_SNAPSHOT < |files| then i + FILES_PER_SNAPSHOT else |files|;
        var batch := files[i..end];
        NextChunk(files, i, end, FILES_PER_SNAPSHOT, plan, k);
        var outcome := fault(run.done);
        if !outcome.NoFault? {
          run := run.(ok := false);
          return;
        }
        run := run.(snapshots := run.snapshots + [batch], registered := run.registered + |batch|, done := run.done + 1);
        k := k + 1;
        i := end;
      }
      assert plan[k..] == [];
    }

    /** Registers the list one call per file, in transactions of PER_FILE_BATCH files. */
    method RegisterFiles(files: seq<string>, fault: nat -> Fault)
      requires run.ok
      modifies this
      ensures run == RunBatches(old(run), Chunks(files, PER_FILE_BATCH), 0, fault)
    {
      var i := 0;
      ghost var plan, k := Chunks(files, PER_FILE_BATCH), 0;
      while i < |files|
        invariant i <= |files| && k <= |plan| && run.ok
        invariant plan[k..] == Chunks(files[i..], PER_FILE_BATCH)
        invariant RunBatches(run, plan, k, fault) == RunBatches(old(run), plan, 0, fault)
      {
        var end := if i + PER_FILE_BATCH < |files| then i + PER_FILE_BATCH else |files|;
        var batch := files[i..end];
        NextChunk(files, i, end, PER_FILE_BATCH, plan, k);
        var outcome := fault(run.done);
        var pending := CallEach(batch, outcome);
        if !outcome.NoFault? {
          run := run.(ok := false);
          return;
        }
        run := run.(snapshots := run.snapshots + [pending], registered := run.registered + |batch|,
                    done := run.done + 1);
        k := k + 1;
        i := end;
      }
      assert plan[k..] == [];
    }

    /** One backfill run over a listing, from the catalog's current snapshots. */
    method Backfill(files: seq<string>, fault: nat -> Fault)
      modifies this
      ensures run == BackfillRun(old(run).snapshots, files, fault)
    {
      run := Start(run.snapshots);
      var existing := Members(Flat(run.snapshots));
      var groups, order := GroupParquetByPrefix(files);
      ghost var gs, begin := GroupsIn(files, {}, order), run;
      for i := 0 to |order|
        invariant run.ok && RunGroups(run, gs, i, existing, fault) == RunGroups(begin, gs, 0, existing, fault)
      {
        assert order[i] in Members(order);
        var group := groups[order[i]];
        assert group == gs[i];
        BackfillPrefix(group, existing, fault);
        if !run.ok {
          return;
        }
      }
    }

    method BackfillPrefix(group: seq<string>, existing: set<string>, fault: nat -> Fault)
      requires run.ok
      modifies this
      ensures run == RunGroup(old(run), group, existing, fault)
    {
      var newFiles := FilterNew(group, existing);
      NewOnlyShorter(group, existing);
      var already := |group| - |newFiles|;
      if |newFiles| == 0 {
        run := run.(skipped := run.skipped + already);
        return;
      }
      if already == 0 {
        RegisterListed(group, fault);
      } else {
        RegisterFiles(newFiles, fault);
        if run.ok {
          run := run.(skipped := run.skipped + already);
        }
      }
    }
  }

  /** The calls of one per-file transaction up to the one that fails; nothing is kept unless the
      whole transaction commits. */
  method CallEach(batch: seq<string>, outcome: Fault) returns (pending: seq<string>)
    ensures outcome.NoFault? ==> pending == batch
  {
    pending := [];
    if outcome.AtBegin? {
      return;
    }
    for j := 0 to |batch|
      invariant pending == batch[..j]
    {
      if outcome.AtCall? && outcome.file == j {
        return;
      }
      pending := pending + [batch[j]];
    }
    assert batch[..|batch|] == batch;
  }

  method FilterNew(group: seq<string>, existing: set<string>) returns (newFiles: seq<string>)
    ensures newFiles == NewOnly(group, existing)
  {
    newFiles := [];
    for i := 0 to |group|
      invariant newFiles == NewOnly(group[..i], existing)
    {
      assert group[..i + 1][..i] == group[..i];
      if group[i] !in existing {
        newFiles := newFiles + [group[i]];
      }
    }
    assert group[..|group|] == group;
  }

  /** The value-level meaning of one whole run. */
  function BackfillRun(snapshots: seq<seq<string>>, files: seq<string>, fault: nat -> Fault): Run {
    RunGroups(Start(snapshots), GroupsIn(files, {}, Order(files)), 0, Members(Flat(snapshots)), fault)
  }

  lemma NextChunk(files: seq<string>, i: nat, end: nat, n: nat, plan: seq<seq<string>>, k: nat)
    requires i < |files| && end == (if i + n < |files| then i + n else |files|)
    requires n > 0 && k <= |plan| && plan[k..] == Chunks(files[i..], n)
    ensures k < |plan| && plan[k] == files[i..end] && plan[k + 1..] == Chunks(files[end..], n)
  {
    var rest := files[i..];
    assert plan[k] == plan[k..][0];
    assert plan[k + 1..] == plan[k..][1..];
    assert rest[..end - i] == files[i..end] && rest[end - i..] == files[end..];
  }

  // ----- What a run commits -----

  /** From `r` to `r'` a prefix of the plan was committed, one snapshot per batch: all of it if the
      run is still going, otherwise up to the first transaction that failed; and the files of those
      batches were added to the registered total. */
  ghost predicate Ran(r: Run, r': Run, plan: seq<seq<string>>, fault: nat -> Fault) {
    var n := r'.done - r.done;
    && 0 <= n <= |plan|
    && r'.snapshots == r.snapshots + plan[..n]
    && r'.registered == r.registered + SizeUpTo(plan, n)
    && (forall b :: r.done <= b < r'.done ==> fault(b).NoFault?)
    && (r'.ok <==> n == |plan|)
    && (!r'.ok ==> !fault(r'.done).NoFault?)
  }

  lemma {:induction false} RunBatchesRan(start: Run, r: Run, plan: seq<seq<string>>, k: nat, fault: nat -> Fault)
    requires start.ok && r.ok && k <= |plan| && r.done == start.done + k
    requires r.snapshots == start.snapshots + plan[..k] && r.registered == start.registered + SizeUpTo(plan, k)
    requires forall b :: start.done <= b < r.done ==> fault(b).NoFault?
    ensures Ran(start, RunBatches(r, plan, k, fault), plan, fault)
    ensures RunBatches(r, plan, k, fault).skipped == r.skipped
    decreases |plan| - k
  {
    if k < |plan| {
      var next := Transact(r, plan[k], fault);
      if next.ok {
        assert plan[..k + 1] == plan[..k] + [plan[k]];
        RunBatchesRan(start, next, plan, k + 1, fault);
      }
    }
  }

  lemma RanWhole(r: Run, r': Run, plan: seq<seq<string>>, fault: nat -> Fault)
    requires Ran(r, r', plan, fault) && r'.ok
    ensures r'.snapshots == r.snapshots + plan && r'.done == r.done + |plan|
    ensures r'.registered == r.registered + SizeUpTo(plan, |plan|)
  {
    assert plan[..|plan|] == plan;
  }

  lemma RanThen(a: Run, b: Run, c: Run, p: seq<seq<string>>, q: seq<seq<string>>, fault: nat -> Fault)
    requires Ran(a, b, p, fault) && b.ok && Ran(b, c, q, fault)
    ensures Ran(a, c, p + q, fault)
  {
    RanWhole(a, b, p, fault);
    var n := c.done - b.done;
    assert (p + q)[..|p| + n] == p + q[..n];
    SizeJoins(p, q, n);
    assert a.snapshots + p + q[..n] == a.snapshots + (p + q[..n]);
  }

  lemma RanPart(a: Run, b: Run, p: seq<seq<string>>, q: seq<seq<string>>, fault: nat -> Fault)
    requires Ran(a, b, p, fault) && !b.ok && p <= q
    ensures Ran(a, b, q, fault)
  {
    var n := b.done - a.done;
    assert p[..n] == q[..n];
    SizeAgrees(p, q, n);
  }

  lemma GroupRan(r: Run, group: seq<string>, existing: set<string>, fault: nat -> Fault, plan: seq<seq<string>>)
    requires r.ok && plan == BatchesOf(group, existing)
    ensures var r' := RunGroup(r, group, existing, fault);
            && Ran(r, r', plan, fault)
            && (r'.ok ==> r'.registered + r'.skipped == r.registered + r.skipped + |group|)
  {
    RunBatchesRan(r, r, plan, 0, fault);
    NewOnlyShorter(group, existing);
    var r' := RunBatches(r, plan, 0, fault);
    if r'.ok {
      RanWhole(r, r', plan, fault);
      FlatBatches(group, existing);
      FlatSize(plan);
    }
  }

  lemma {:induction false} GroupsRan(begin: Run, r: Run, gs: seq<seq<string>>, i: nat, existing: set<string>,
                                     fault: nat -> Fault, plans: seq<seq<seq<string>>>)
    requires i <= |gs| == |plans| && r.ok && plans == BatchesPer(gs, existing)
    requires Ran(begin, r, Join(plans, i), fault)
    requires r.registered + r.skipped == begin.registered + begin.skipped + SizeUpTo(gs, i)
    ensures var out := RunGroups(r, gs, i, existing, fault);
            && Ran(begin, out, Join(plans, |plans|), fault)
            && (out.ok ==> out.registered + out.skipped == begin.registered + begin.skipped + SizeUpTo(gs, |gs|))
    decreases |gs| - i
  {
    if i < |gs| {
      var next := RunGroup(r, gs[i], existing, fault);
      GroupRan(r, gs[i], existing, fault, plans[i]);
      RanThen(begin, r, next, Join(plans, i), plans[i], fault);
      if next.ok {
        GroupsRan(begin, next, gs, i + 1, existing, fault, plans);
      } else {
        JoinGrows(plans, i + 1, |plans|);
        RanPart(begin, next, Join(plans, i + 1), Join(plans, |plans|), fault);
      }
    }
  }

  lemma {:induction false} JoinGrows<T>(lists: seq<seq<T>>, i: nat, j: nat)
    requires i <= j <= |lists|
    ensures Join(lists, i) <= Join(lists, j)
  {
    if i < j { JoinGrows(lists, i, j - 1); }
  }

  /** Every run, failing or not, commits a prefix of its plan and reports exactly what it
      registered; a completed run accounts for every parquet file of the listing. */
  lemma RunCommitsPlan(snapshots: seq<seq<string>>, files: seq<string>, fault: nat -> Fault)
    ensures var out := BackfillRun(snapshots, files, fault);
            && Ran(Start(snapshots), out, Plan(files, Members(Flat(snapshots))), fault)
            && (out.ok ==> out.registered + out.skipped == |Fresh(files, {})|)
  {
    var existing := Members(Flat(snapshots));
    var gs := GroupsIn(files, {}, Order(files));
    GroupsRan(Start(snapshots), Start(snapshots), gs, 0, existing, fault, BatchesPer(gs, existing));
    EverythingCounted(files);
  }

  lemma {:induction false} FlatJoins(a: seq<seq<string>>, b: seq<seq<string>>)
    ensures Flat(a + b) == Flat(a) + Flat(b)
  {
    if a == [] {
      assert a + b == b;
    } else {
      assert (a + b)[1..] == a[1..] + b;
      FlatJoins(a[1..], b);
    }
  }

  lemma {:induction false} FlatChunks(s: seq<string>, n: nat)
    requires n > 0
    ensures Flat(Chunks(s, n)) == s
    ensures forall i :: 0 <= i < |Chunks(s, n)| ==> 0 < |Chunks(s, n)[i]| <= n
    decreases |s|
  {
    if s == [] {
    } else if |s| <= n {
      assert [s][1..] == [];
    } else {
      FlatChunks(s[n..], n);
      var cs := Chunks(s, n);
      assert cs == [s[..n]] + Chunks(s[n..], n) && cs[1..] == Chunks(s[n..], n);
      assert s == s[..n] + s[n..];
    }
  }

  lemma {:induction false} NewOnlyShorter(group: seq<string>, existing: set<string>)
    ensures |NewOnly(group, existing)| <= |group|
    ensures |NewOnly(group, existing)| == |group| ==> NewOnly(group, existing) == group
  {
    if group != [] { NewOnlyShorter(group[..|group| - 1], existing); }
  }

  lemma {:induction false} NothingExists(group: seq<string>)
    ensures NewOnly(group, {}) == group
  {
    if group != [] { NothingExists(group[..|group| - 1]); }
  }

  lemma FlatBatches(group: seq<string>, existing: set<string>)
    ensures Flat(BatchesOf(group, existing)) == NewOnly(group, existing)
  {
    NewOnlyShorter(group, existing);
    FlatChunks(group, FILES_PER_SNAPSHOT);
    FlatChunks(NewOnly(group, existing), PER_FILE_BATCH);
  }

  // ----- What a plan contains -----

  lemma {:induction false} FlatJoin(plans: seq<seq<seq<string>>>, lists: seq<seq<string>>, i: nat)
    requires |plans| == |lists| && i <= |plans| && forall k :: 0 <= k < i ==> Flat(plans[k]) == lists[k]
    ensures Flat(Join(plans, i)) == Join(lists, i)
  {
    if i > 0 {
      FlatJoin(plans, lists, i - 1);
      FlatJoins(Join(plans, i - 1), plans[i - 1]);
    }
  }

  lemma {:induction false} NewOfSelected(files: seq<string>, existing: set<string>, prefixes: set<string>)
    ensures NewOnly(Select(files, {}, prefixes), existing) == Select(files, existing, prefixes)
  {
    if files != [] {
      var init := files[..|files| - 1];
      NewOfSelected(init, existing, prefixes);
      var f, sel := files[|files| - 1], Select(init, {}, prefixes);
      if IsParquet(f) && PrefixOf(f) in prefixes {
        assert (sel + [f])[..|sel|] == sel && (sel + [f])[|sel|] == f;
        assert Select(files, {}, prefixes) == sel + [f];
      } else {
        assert Select(files, {}, prefixes) == sel;
      }
    }
  }

  lemma {:induction false} SelectSplits(files: seq<string>, skip: set<string>, ps: set<string>, p: string)
    requires p !in ps
    ensures multiset(Select(files, skip, ps + {p}))
            == multiset(Select(files, skip, ps)) + multiset(Select(files, skip, {p}))
  {
    if files != [] { SelectSplits(files[..|files| - 1], skip, ps, p); }
  }

  lemma {:induction false} SelectNone(files: seq<string>, skip: set<string>)
    ensures Select(files, skip, {}) == []
  {
    if files != [] { SelectNone(files[..|files| - 1], skip); }
  }

  /** The first i prefixes, as a set. */
  function PrefixSet(order: seq<string>, i: nat): set<string>
    requires i <= |order|
  {
    if i == 0 then {} else PrefixSet(order, i - 1) + {order[i - 1]}
  }

  lemma {:induction false} PrefixSetIs(order: seq<string>, i: nat, p: string)
    requires i <= |order|
    ensures p in PrefixSet(order, i) <==> exists k :: 0 <= k < i && order[k] == p
  {
    if i > 0 { PrefixSetIs(order, i - 1, p); }
  }

  lemma {:induction false} JoinMultiset(files: seq<string>, existing: set<string>, order: seq<string>, i: nat,
                                        lists: seq<seq<string>>, selected: seq<string>)
    requires Distinct(order) && i <= |order| && lists == GroupsIn(files, existing, order)
    requires selected == Select(files, existing, PrefixSet(order, i))
    ensures multiset(Join(lists, i)) == multiset(selected)
  {
    if i == 0 {
      SelectNone(files, existing);
    } else {
      var p := order[i - 1];
      var before := Select(files, existing, PrefixSet(order, i - 1));
      JoinMultiset(files, existing, order, i - 1, lists, before);
      PrefixSetIs(order, i - 1, p);
      SelectSplits(files, existing, PrefixSet(order, i - 1), p);
      JoinOneMore(lists, i);
    }
  }

  lemma JoinOneMore(lists: seq<seq<string>>, i: nat)
    requires 0 < i <= |lists|
    ensures multiset(Join(lists, i)) == multiset(Join(lists, i - 1)) + multiset(lists[i - 1])
  {
  }

  lemma {:induction false} SelectAll(files: seq<string>, skip: set<string>, prefixes: set<string>)
    requires forall i :: 0 <= i < |files| && IsParquet(files[i]) ==> PrefixOf(files[i]) in prefixes
    ensures Select(files, skip, prefixes) == Fresh(files, skip)
  {
    if files != [] { SelectAll(files[..|files| - 1], skip, prefixes); }
  }

  lemma JoinIsFresh(files: seq<string>, existing: set<string>)
    ensures var gs := GroupsIn(files, existing, Order(files));
            multiset(Join(gs, |gs|)) == multiset(Fresh(files, existing))
  {
    var order := Order(files);
    OrderDistinct(files);
    JoinMultiset(files, existing, order, |order|, GroupsIn(files, existing, order),
                 Select(files, existing, PrefixSet(order, |order|)));
    forall i | 0 <= i < |files| && IsParquet(files[i]) ensures PrefixOf(files[i]) in PrefixSet(order, |order|) {
      PrefixSetIs(order, |order|, PrefixOf(files[i]));
    }
    SelectAll(files, existing, PrefixSet(order, |order|));
  }

  lemma EverythingCounted(files: seq<string>)
    ensures var gs := GroupsIn(files, {}, Order(files)); SizeUpTo(gs, |gs|) == |Fresh(files, {})|
  {
    var gs := GroupsIn(files, {}, Order(files));
    SizeIsLength(gs, |gs|);
    JoinIsFresh(files, {});
    SameSize(Join(gs, |gs|), Fresh(files, {}));
  }

  lemma SameSize(a: seq<string>, b: seq<string>)
    requires multiset(a) == multiset(b)
    ensures |a| == |b|
  {
    assert |a| == |multiset(a)| && |b| == |multiset(b)|;
  }

  /** A plan registers each new parquet file of the listing exactly as often as it is listed. */
  lemma PlanExact(files: seq<string>, existing: set<string>)
    ensures multiset(Flat(Plan(files, existing))) == multiset(Fresh(files, existing))
  {
    var order := Order(files);
    var gs, lists := GroupsIn(files, {}, order), GroupsIn(files, existing, order);
    var plans := BatchesPer(gs, existing);
    forall k | 0 <= k < |gs| ensures Flat(plans[k]) == lists[k] {
      FlatBatches(gs[k], existing);
      NewOfSelected(files, existing, {order[k]});
    }
    FlatJoin(plans, lists, |gs|);
    JoinIsFresh(files, existing);
  }

  lemma {:induction false} JoinBounded(plans: seq<seq<seq<string>>>, i: nat, most: nat)
    requires i <= |plans|
    requires forall k, b :: 0 <= k < |plans| && 0 <= b < |plans[k]| ==> 0 < |plans[k][b]| <= most
    ensures forall b :: 0 <= b < |Join(plans, i)| ==> 0 < |Join(plans, i)[b]| <= most
  {
    if i > 0 { JoinBounded(plans, i - 1, most); }
  }

  /** Within one prefix the cap is that of the path taken: the smaller one where some files are
      already registered and the new ones go in one call each. */
  lemma PrefixBatchesBounded(group: seq<string>, existing: set<string>, b: nat)
    requires b < |BatchesOf(group, existing)|
    ensures 0 < |BatchesOf(group, existing)[b]|
              <= if NewOnly(group, existing) == group then FILES_PER_SNAPSHOT else PER_FILE_BATCH
  {
    NewOnlyShorter(group, existing);
    FlatChunks(group, FILES_PER_SNAPSHOT);
    FlatChunks(NewOnly(group, existing), PER_FILE_BATCH);
  }

  /** Every snapshot of a run holds at least one file and at most the batch cap. */
  lemma PlanBatchesBounded(files: seq<string>, existing: set<string>, b: nat)
    requires b < |Plan(files, existing)|
    ensures 0 < |Plan(files, existing)[b]| <= FILES_PER_SNAPSHOT
  {
    var gs := GroupsIn(files, {}, Order(files));
    var plans := BatchesPer(gs, existing);
    forall k, c | 0 <= k < |plans| && 0 <= c < |plans[k]| ensures 0 < |plans[k][c]| <= FILES_PER_SNAPSHOT {
      PrefixBatchesBounded(gs[k], existing, c);
    }
    JoinBounded(plans, |plans|, FILES_PER_SNAPSHOT);
  }

  // ----- Idempotence over crashes and reruns -----

  /** No file is registered twice. */
  ghost predicate Once(s: seq<string>) {
    forall x :: multiset(s)[x] <= 1
  }

  lemma FlatPrefix(plan: seq<seq<string>>, n: nat)
    requires n <= |plan|
    ensures multiset(Flat(plan[..n])) <= multiset(Flat(plan))
  {
    assert plan == plan[..n] + plan[n..];
    FlatJoins(plan[..n], plan[n..]);
  }

  /** What the catalog holds after a run: everything it held, and of the new parquet files all if
      the run completed and some otherwise, each as often as it was listed. */
  lemma AfterRun(snapshots: seq<seq<string>>, files: seq<string>, fault: nat -> Fault)
    ensures var out, added := BackfillRun(snapshots, files, fault), multiset(Fresh(files, Members(Flat(snapshots))));
            && snapshots <= out.snapshots
            && multiset(Flat(snapshots)) <= multiset(Flat(out.snapshots)) <= multiset(Flat(snapshots)) + added
            && (out.ok ==> multiset(Flat(out.snapshots)) == multiset(Flat(snapshots)) + added)
  {
    var out, plan := BackfillRun(snapshots, files, fault), Plan(files, Members(Flat(snapshots)));
    RunCommitsPlan(snapshots, files, fault);
    PlanExact(files, Members(Flat(snapshots)));
    FlatJoins(snapshots, plan[..out.done]);
    FlatPrefix(plan, out.done);
    if out.ok { assert plan[..out.done] == plan; }
  }

  lemma {:induction false} FreshHas(files: seq<string>, skip: set<string>, x: string)
    ensures multiset(Fresh(files, skip))[x] == if IsParquet(x) && x !in skip then multiset(files)[x] else 0
  {
    if files != [] {
      FreshHas(files[..|files| - 1], skip, x);
      assert files == files[..|files| - 1] + [files[|files| - 1]];
    }
  }

  lemma MemberIsCounted(s: seq<string>, x: string)
    ensures x in Members(s) <==> multiset(s)[x] > 0
  {
    assert x in s <==> x in multiset(s);
  }

  /** Exactly when a completed run keeps the catalog free of double registrations: no new parquet
      file may be listed twice. */
  lemma OnceExactly(snapshots: seq<seq<string>>, files: seq<string>, fault: nat -> Fault)
    requires Once(Flat(snapshots)) && BackfillRun(snapshots, files, fault).ok
    ensures Once(Flat(BackfillRun(snapshots, files, fault).snapshots)) <==> Once(Fresh(files, Members(Flat(snapshots))))
  {
    var out := BackfillRun(snapshots, files, fault);
    AfterRun(snapshots, files, fault);
    forall x
      ensures multiset(Flat(out.snapshots))[x] <= 1 <==> multiset(Fresh(files, Members(Flat(snapshots))))[x] <= 1
    {
      FreshHas(files, Members(Flat(snapshots)), x);
      MemberIsCounted(Flat(snapshots), x);
    }
  }

  lemma RunKeepsOnce(snapshots: seq<seq<string>>, files: seq<string>, fault: nat -> Fault)
    requires Once(Flat(snapshots)) && Once(files)
    ensures Once(Flat(BackfillRun(snapshots, files, fault).snapshots))
  {
    AfterRun(snapshots, files, fault);
    forall x ensures multiset(Flat(BackfillRun(snapshots, files, fault).snapshots))[x] <= 1 {
      FreshHas(files, Members(Flat(snapshots)), x);
      MemberIsCounted(Flat(snapshots), x);
    }
  }

  /** Any run keeps the old files and brings only parquet files of the listing. */
  lemma RunBrings(snapshots: seq<seq<string>>, files: seq<string>, fault: nat -> Fault, x: string)
    ensures var now := Members(Flat(BackfillRun(snapshots, files, fault).snapshots));
            && (x in Members(Flat(snapshots)) ==> x in now)
            && (x in now ==> x in Members(Flat(snapshots)) || (IsParquet(x) && x in files))
  {
    AfterRun(snapshots, files, fault);
    FreshHas(files, Members(Flat(snapshots)), x);
    MemberIsCounted(Flat(snapshots), x);
    MemberIsCounted(Flat(BackfillRun(snapshots, files, fault).snapshots), x);
    assert x in files <==> x in multiset(files);
  }

  /** A completed run leaves exactly the old files plus all parquet paths of the listing. */
  lemma CompletedRunCovers(snapshots: seq<seq<string>>, files: seq<string>, fault: nat -> Fault, x: string)
    requires BackfillRun(snapshots, files, fault).ok
    ensures x in Members(Flat(BackfillRun(snapshots, files, fault).snapshots))
            <==> x in Members(Flat(snapshots)) || (IsParquet(x) && x in files)
  {
    var out := BackfillRun(snapshots, files, fault);
    AfterRun(snapshots, files, fault);
    FreshHas(files, Members(Flat(snapshots)), x);
    MemberIsCounted(Flat(snapshots), x);
    MemberIsCounted(Flat(out.snapshots), x);
    assert x in files <==> x in multiset(files);
  }

  /** cs are the catalog's snapshots before, between and after a sequence of runs, each over a listing
      of its own and failing wherever its faults say. */
  ghost predicate Reruns(cs: seq<seq<seq<string>>>, listings: seq<seq<string>>, faults: seq<nat -> Fault>) {
    && |cs| == |faults| + 1 == |listings| + 1
    && (forall k :: 0 <= k < |faults| ==> cs[k + 1] == BackfillRun(cs[k], listings[k], faults[k]).snapshots)
  }

  /** x is a parquet file of one of the first n listings. */
  ghost predicate ListedBy(listings: seq<seq<string>>, n: nat, x: string)
    requires n <= |listings|
  {
    IsParquet(x) && exists k :: 0 <= k < n && x in listings[k]
  }

  /** Crash and rerun: after any number of runs over duplicate-free listings, the same or others,
      failing at any batches, no file is registered twice, old files stay, and nothing is there but
      old files and parquet files of the listings. */
  lemma {:induction false} RerunsAreSafe(cs: seq<seq<seq<string>>>, listings: seq<seq<string>>,
                                         faults: seq<nat -> Fault>, n: nat, x: string)
    requires Reruns(cs, listings, faults) && n < |cs|
    requires Once(Flat(cs[0])) && forall k :: 0 <= k < n ==> Once(listings[k])
    ensures Once(Flat(cs[n]))
    ensures x in Members(Flat(cs[0])) ==> x in Members(Flat(cs[n]))
    ensures x in Members(Flat(cs[n])) ==> x in Members(Flat(cs[0])) || ListedBy(listings, n, x)
  {
    if n > 0 {
      RerunsAreSafe(cs, listings, faults, n - 1, x);
      RunKeepsOnce(cs[n - 1], listings[n - 1], faults[n - 1]);
      RunBrings(cs[n - 1], listings[n - 1], faults[n - 1], x);
      assert x in listings[n - 1] && IsParquet(x) ==> ListedBy(listings, n, x);
    }
  }

  /** ... and once a run completes over a listing that has everything the earlier ones had, the same or
      a grown one, the catalog is exactly what one uninterrupted run over it would leave. */
  lemma RerunsConverge(cs: seq<seq<seq<string>>>, listings: seq<seq<string>>, faults: seq<nat -> Fault>, n: nat,
                       x: string)
    requires Reruns(cs, listings, faults) && n < |faults|
    requires Once(Flat(cs[0])) && forall k :: 0 <= k < n ==> Once(listings[k])
    requires forall k, y :: 0 <= k < n && y in listings[k] ==> y in listings[n]
    requires BackfillRun(cs[n], listings[n], faults[n]).ok
    ensures x in Members(Flat(cs[n + 1])) <==> x in Members(Flat(cs[0])) || (IsParquet(x) && x in listings[n])
  {
    RerunsAreSafe(cs, listings, faults, n, x);
    CompletedRunCovers(cs[n], listings[n], faults[n], x);
  }

  /** Rerunning a completed backfill commits nothing and skips everything. */
  lemma RerunIsIdle(snapshots: seq<seq<string>>, files: seq<string>, fault: nat -> Fault, again: nat -> Fault)
    requires BackfillRun(snapshots, files, fault).ok
    ensures var done := BackfillRun(snapshots, files, fault).snapshots;
            BackfillRun(done, files, again) == Run(done, 0, |Fresh(files, {})|, 0, true)
  {
    var done := BackfillRun(snapshots, files, fault).snapshots;
    var existing := Members(Flat(done));
    var out, plan := BackfillRun(done, files, again), Plan(files, existing);
    forall x ensures multiset(Fresh(files, existing))[x] == 0 {
      FreshHas(files, existing, x);
      CompletedRunCovers(snapshots, files, fault, x);
      assert x in files <==> x in multiset(files);
    }
    PlanExact(files, existing);
    SameSize(Flat(plan), []);
    RunCommitsPlan(done, files, again);
    if plan != [] { PlanBatchesBounded(files, existing, 0); }
  }
}
