/** Snapshot expiry: a cutoff frozen before the long merge steps and used after them, with the
    cursors of live consumers as a floor. */
module Expiry {
  import opened Options

  /** A catalog snapshot. Times are microseconds. */
  datatype Snapshot = Snapshot(id: int, time: int)

  /** A row of the consumer progress table, which has no constraints. */
  datatype Row = Row(consumer: string, cursor: int, updated: int)

  /** What the maintainer runs with, in whole seconds. */
  datatype Config = Config(keepSeconds: int, staleSeconds: int)

  const SECOND: int := 1_000_000

  // ----- Configuration -----

  /** The two durations as configured, in nanoseconds. */
  datatype Settings = Settings(staleness: int, keep: int)

  const BILLION: int := 1_000_000_000

  /** validateMaintenance */
  predicate Validates(s: Settings) {
    s.staleness < s.keep
  }

  function Defaulted(d: int, hours: nat): int {
    if d == 0 then hours * 3600 * BILLION else d
  }

  /** A duration as whole seconds, truncated toward zero. */
  function WholeSeconds(d: int): int {
    if d >= 0 then d / BILLION else -(-d / BILLION)
  }

  /** The maintainer's configuration: zero durations take their defaults. */
  function ConfigOf(s: Settings): Config {
    Config(WholeSeconds(Defaulted(s.keep, 72)), WholeSeconds(Defaulted(s.staleness, 1)))
  }

  /** No row stamped in the past counts as live under a retention that reaches into the future. */
  predicate Sound(c: Config) {
    c.keepSeconds >= 0 || c.staleSeconds <= 0
  }

  lemma ValidatedIsSound(s: Settings)
    requires Validates(s)
    ensures Sound(ConfigOf(s))
  {
  }

  // ----- consumer.go -----

  function Without(rows: seq<Row>, consumer: string): seq<Row> {
    if rows == [] then []
    else
      var r := rows[|rows| - 1];
      Without(rows[..|rows| - 1], consumer) + if r.consumer == consumer then [] else [r]
  }

  /** Deleting leaves no row of the consumer and every row of anybody else. */
  lemma {:induction false} WithoutExactly(rows: seq<Row>, consumer: string, r: Row)
    ensures r in Without(rows, consumer) <==> r in rows && r.consumer != consumer
  {
    if rows != [] {
      WithoutExactly(rows[..|rows| - 1], consumer, r);
      assert rows == rows[..|rows| - 1] + [rows[|rows| - 1]];
    }
  }

  /** How an attempt to record progress ends: any statement of the transaction may fail. */
  datatype Failure = NoFailure | BeginFails | DeleteFails | InsertFails | CommitFails

  /** The catalog's side of consumer.go, the table being changed only by a committed transaction. */
  class ProgressTable {
    var rows: seq<Row>

    constructor ()
      ensures rows == []
    {
      rows := [];
    }

    /** Delete-then-insert in one transaction: on success the consumer has exactly the new row and
        nobody else's rows change; on any failure nothing changes. */
    method RecordConsumerProgress(consumer: string, cursor: int, now: int, fault: Failure) returns (ok: bool)
      modifies this
      ensures ok <==> fault.NoFailure?
      ensures !ok ==> rows == old(rows)
      ensures ok ==> rows == Without(old(rows), consumer) + [Row(consumer, cursor, now)]
    {
      if fault.BeginFails? {
        return false;
      }
      var txn := rows;
      if fault.DeleteFails? {
        return false;
      }
      var i, kept := 0, [];
      while i < |txn|
        invariant i <= |txn| && kept == Without(txn[..i], consumer)
      {
        assert txn[..i + 1][..i] == txn[..i];
        if txn[i].consumer != consumer {
          kept := kept + [txn[i]];
        }
        i := i + 1;
      }
      assert txn[..|txn|] == txn;
      if fault.InsertFails? {
        return false;
      }
      txn := kept + [Row(consumer, cursor, now)];
      if fault.CommitFails? {
        return false;
      }
      rows := txn;
      return true;
    }
  }

  predicate Live(c: Config, r: Row, now: int) {
    r.updated > now - c.staleSeconds * SECOND
  }

  /** The lowest cursor among live rows, if there is one. */
  method ConsumerFloor(c: Config, rows: seq<Row>, now: int) returns (floor: Option<int>)
    ensures IsFloor(c, rows, now, floor)
  {
    floor := None;
    for i := 0 to |rows|
      invariant IsFloor(c, rows[..i], now, floor)
    {
      assert rows[..i + 1] == rows[..i] + [rows[i]];
      if Live(c, rows[i], now) && (floor.None? || rows[i].cursor < floor.value) {
        floor := Some(rows[i].cursor);
      }
    }
    assert rows[..|rows|] == rows;
  }

  ghost predicate IsFloor(c: Config, rows: seq<Row>, now: int, floor: Option<int>) {
    match floor
    case None => forall i :: 0 <= i < |rows| ==> !Live(c, rows[i], now)
    case Some(f) =>
      && (forall i :: 0 <= i < |rows| && Live(c, rows[i], now) ==> f <= rows[i].cursor)
      && (exists i :: 0 <= i < |rows| && Live(c, rows[i], now) && rows[i].cursor == f)
  }

  /** The time of the oldest snapshot past the cursor, if there is one. */
  method FirstUnconsumed(snaps: seq<Snapshot>, cursor: int) returns (time: Option<int>)
    ensures IsFirstUnconsumed(snaps, cursor, time)
  {
    time := None;
    for i := 0 to |snaps|
      invariant IsFirstUnconsumed(snaps[..i], cursor, time)
    {
      assert snaps[..i + 1] == snaps[..i] + [snaps[i]];
      if snaps[i].id > cursor && (time.None? || snaps[i].time < time.value) {
        time := Some(snaps[i].time);
      }
    }
    assert snaps[..|snaps|] == snaps;
  }

  ghost predicate IsFirstUnconsumed(snaps: seq<Snapshot>, cursor: int, time: Option<int>) {
    match time
    case None => forall i :: 0 <= i < |snaps| ==> snaps[i].id <= cursor
    case Some(t) =>
      && (forall i :: 0 <= i < |snaps| && snaps[i].id > cursor ==> t <= snaps[i].time)
      && (exists i :: 0 <= i < |snaps| && snaps[i].id > cursor && snaps[i].time == t)
  }

  /** No snapshot past the cursor of a row live at `at` is older than the cutoff. */
  ghost predicate SparesUnread(c: Config, rows: seq<Row>, at: int, snaps: seq<Snapshot>, cutoff: int) {
    forall i, k :: 0 <= i < |rows| && 0 <= k < |snaps| && Live(c, rows[i], at) && snaps[k].id > rows[i].cursor
      ==> cutoff <= snaps[k].time
  }

  /** What expireCutoff promises about the cutoff it returns, having read the progress rows at `at`
      and the snapshots at `now`: never past the retention horizon or any snapshot that a consumer
      live at `at` has not consumed, and no earlier than that requires. */
  ghost predicate IsCutoff(c: Config, rows: seq<Row>, at: int, snaps: seq<Snapshot>, now: int, cutoff: int,
                           binding: bool) {
    var horizon := now - c.keepSeconds * SECOND;
    && cutoff <= horizon
    && SparesUnread(c, rows, at, snaps, cutoff)
    && (binding <==> cutoff < horizon)
    && (binding ==> exists i, k :: 0 <= i < |rows| && 0 <= k < |snaps| && Live(c, rows[i], at)
                      && snaps[k].id > rows[i].cursor && snaps[k].time == cutoff)
  }

  /** Two separate catalog reads: the floor first, then the horizon and the snapshots. */
  method ExpireCutoff(c: Config, rows: seq<Row>, at: int, snaps: seq<Snapshot>, now: int)
    returns (cutoff: int, binding: bool)
    ensures IsCutoff(c, rows, at, snaps, now, cutoff, binding)
  {
    var horizon := now - c.keepSeconds * SECOND;
    var floor := ConsumerFloor(c, rows, at);
    if floor.None? {
      return horizon, false;
    }
    var bound := FirstUnconsumed(snaps, floor.value);
    if bound.None? || bound.value >= horizon {
      return horizon, false;
    }
    return bound.value, true;
  }

  // ----- The maintenance cycle beside commits, cursor updates and the clock -----

  /** `seen` and `at` record what the floor was computed from, `snaps`, `now` and `binding` what the
      cutoff was. */
  datatype Phase =
    | Idle
    | FloorRead(seen: seq<Row>, at: int)
    | Frozen(cutoff: int, seen: seq<Row>, at: int, snaps: seq<Snapshot>, now: int, binding: bool)

  datatype State = State(now: int, rows: seq<Row>, snaps: seq<Snapshot>, nextId: int, phase: Phase)

  datatype Step =
    | Tick(elapsed: nat)
    | Commit                                    // an ingest write, a merge sub-call, any other snapshot
    | Record(consumer: string, cursor: int)
    | ReadFloor
    | Freeze(cutoff: int, binding: bool)
    | Expire
    | Skip                                      // a failed step: expiry waits for the next cycle

  /** ducklake_expire_snapshots: strictly older than the cutoff, never the current snapshot. */
  predicate Expires(x: Snapshot, cutoff: int, head: int) {
    x.time < cutoff && x.id != head
  }

  function Surviving(snaps: seq<Snapshot>, cutoff: int, head: int): seq<Snapshot> {
    if snaps == [] then []
    else
      var x := snaps[|snaps| - 1];
      Surviving(snaps[..|snaps| - 1], cutoff, head) + if Expires(x, cutoff, head) then [] else [x]
  }

  ghost predicate Next(c: Config, s: State, e: Step, s': State) {
    match e
    case Tick(elapsed) => s' == s.(now := s.now + elapsed)
    case Commit => s' == s.(snaps := s.snaps + [Snapshot(s.nextId, s.now)], nextId := s.nextId + 1)
    case Record(who, cursor) => s' == s.(rows := Without(s.rows, who) + [Row(who, cursor, s.now)])
    case ReadFloor => s.phase.Idle? && s' == s.(phase := FloorRead(s.rows, s.now))
    case Freeze(cutoff, binding) =>
      && s.phase.FloorRead?
      && IsCutoff(c, s.phase.seen, s.phase.at, s.snaps, s.now, cutoff, binding)
      && s' == s.(phase := Frozen(cutoff, s.phase.seen, s.phase.at, s.snaps, s.now, binding))
    case Expire =>
      s.phase.Frozen? && s' == s.(snaps := Surviving(s.snaps, s.phase.cutoff, s.nextId - 1), phase := Idle)
    case Skip => s' == s.(phase := Idle)
  }

  // ----- What holds in every state of a run -----

  ghost predicate StampedBy(rows: seq<Row>, now: int) {
    forall i :: 0 <= i < |rows| ==> rows[i].updated <= now
  }

  ghost predicate DistinctIds(snaps: seq<Snapshot>, nextId: int) {
    && (forall i :: 0 <= i < |snaps| ==> snaps[i].id < nextId)
    && (forall i, j :: 0 <= i < j < |snaps| ==> snaps[i].id != snaps[j].id)
  }

  /** No row is or was stamped in the future, snapshot ids are distinct and used up in order. */
  ghost predicate Regular(s: State) {
    && StampedBy(s.rows, s.now)
    && DistinctIds(s.snaps, s.nextId)
    && (!s.phase.Idle? ==> StampedBy(s.phase.seen, s.phase.at) && s.phase.at <= s.now)
  }

  /** The frozen cutoff is the one computed when it was frozen and, under a sound configuration, still
      safe for every row that was live when the floor was read. */
  ghost predicate CutoffSafe(c: Config, s: State) {
    s.phase.Frozen? ==>
      && IsCutoff(c, s.phase.seen, s.phase.at, s.phase.snaps, s.phase.now, s.phase.cutoff, s.phase.binding)
      && s.phase.now <= s.now
      && (Sound(c) ==> SparesUnread(c, s.phase.seen, s.phase.at, s.snaps, s.phase.cutoff))
  }

  ghost predicate IsRun(c: Config, ss: seq<State>, es: seq<Step>) {
    && |ss| == |es| + 1 && ss[0].phase.Idle? && Regular(ss[0])
    && (forall i :: 0 <= i < |es| ==> Next(c, ss[i], es[i], ss[i + 1]))
  }

  lemma {:induction false} WithoutStamped(rows: seq<Row>, who: string, now: int)
    requires StampedBy(rows, now)
    ensures StampedBy(Without(rows, who), now)
  {
    if rows != [] { WithoutStamped(rows[..|rows| - 1], who, now); }
  }

  lemma {:induction false} SurvivingExactly(snaps: seq<Snapshot>, cutoff: int, head: int, x: Snapshot)
    ensures x in Surviving(snaps, cutoff, head) <==> x in snaps && !Expires(x, cutoff, head)
  {
    if snaps != [] {
      SurvivingExactly(snaps[..|snaps| - 1], cutoff, head, x);
      assert snaps == snaps[..|snaps| - 1] + [snaps[|snaps| - 1]];
    }
  }

  lemma {:induction false} SurvivingDistinct(snaps: seq<Snapshot>, cutoff: int, head: int, nextId: int)
    requires DistinctIds(snaps, nextId)
    ensures DistinctIds(Surviving(snaps, cutoff, head), nextId)
  {
    if snaps != [] {
      var init := snaps[..|snaps| - 1];
      SurvivingDistinct(init, cutoff, head, nextId);
      var kept := Surviving(init, cutoff, head);
      forall i | 0 <= i < |kept| ensures kept[i].id != snaps[|snaps| - 1].id {
        SurvivingExactly(init, cutoff, head, kept[i]);
      }
    }
  }

  lemma StepStaysRegular(c: Config, s: State, e: Step, s': State)
    requires Regular(s) && Next(c, s, e, s')
    ensures Regular(s')
  {
    match e
    case Record(who, _) => WithoutStamped(s.rows, who, s.now);
    case Expire => SurvivingDistinct(s.snaps, s.phase.cutoff, s.nextId - 1, s.nextId);
    case _ =>
  }

  lemma CommitStaysUnread(c: Config, rows: seq<Row>, at: int, snaps: seq<Snapshot>, cutoff: int, now: int, nextId: int)
    requires SparesUnread(c, rows, at, snaps, cutoff)
    requires cutoff <= now || (forall i :: 0 <= i < |rows| ==> !Live(c, rows[i], at))
    ensures SparesUnread(c, rows, at, snaps + [Snapshot(nextId, now)], cutoff)
  {
  }

  /** Commits, cursor updates and clock ticks between freezing and expiring cannot break it. */
  lemma StepKeepsCutoffSafe(c: Config, s: State, e: Step, s': State)
    requires Regular(s) && CutoffSafe(c, s) && Next(c, s, e, s')
    ensures CutoffSafe(c, s')
  {
    if e.Commit? && s.phase.Frozen? && Sound(c) {
      CommitStaysUnread(c, s.phase.seen, s.phase.at, s.snaps, s.phase.cutoff, s.now, s.nextId);
    }
  }

  lemma {:induction false} RunKeepsCutoffSafe(c: Config, ss: seq<State>, es: seq<Step>, i: nat)
    requires IsRun(c, ss, es) && i < |ss|
    ensures CutoffSafe(c, ss[i]) && Regular(ss[i])
  {
    if i > 0 {
      RunKeepsCutoffSafe(c, ss, es, i - 1);
      StepKeepsCutoffSafe(c, ss[i - 1], es[i - 1], ss[i]);
      StepStaysRegular(c, ss[i - 1], es[i - 1], ss[i]);
    }
  }

  // ----- Exactly what expires -----

  /** x is older than every snapshot in `snaps` that some row live at `at` has not read: a cutoff just
      past x would spare them all. */
  ghost predicate BeforeUnread(c: Config, rows: seq<Row>, at: int, snaps: seq<Snapshot>, x: Snapshot) {
    SparesUnread(c, rows, at, snaps, x.time + 1)
  }

  lemma BeforeCutoff(c: Config, rows: seq<Row>, at: int, snaps: seq<Snapshot>, now: int, cutoff: int, binding: bool,
                     x: Snapshot)
    requires IsCutoff(c, rows, at, snaps, now, cutoff, binding)
    ensures x.time < cutoff <==> x.time < now - c.keepSeconds * SECOND && BeforeUnread(c, rows, at, snaps, x)
  {
    if binding {
      var i, k :| 0 <= i < |rows| && 0 <= k < |snaps| && Live(c, rows[i], at)
                  && snaps[k].id > rows[i].cursor && snaps[k].time == cutoff;
      assert BeforeUnread(c, rows, at, snaps, x) ==> x.time < snaps[k].time;
    }
  }

  /** In every run, an expire step removes a snapshot if and only if it is not the current one, was
      older than the retention horizon when the cutoff was frozen, and is older than everything that
      a consumer live at the floor read had not read then. */
  lemma ExpiredExactly(c: Config, ss: seq<State>, es: seq<Step>, k: nat, x: Snapshot)
    requires IsRun(c, ss, es) && k < |es| && es[k].Expire? && x in ss[k].snaps
    ensures ss[k].phase.Frozen?
    ensures var s := ss[k];
            x !in ss[k + 1].snaps
            <==> && x.id != s.nextId - 1
                 && x.time < s.phase.now - c.keepSeconds * SECOND
                 && BeforeUnread(c, s.phase.seen, s.phase.at, s.phase.snaps, x)
  {
    var s := ss[k];
    RunKeepsCutoffSafe(c, ss, es, k);
    assert Next(c, s, es[k], ss[k + 1]);
    SurvivingExactly(s.snaps, s.phase.cutoff, s.nextId - 1, x);
    BeforeCutoff(c, s.phase.seen, s.phase.at, s.phase.snaps, s.phase.now, s.phase.cutoff, s.phase.binding, x);
  }

  /** Expiry safety: in any run, a snapshot removed by an expire step is older than retention and,
      under a sound configuration, was consumed by every consumer live when the floor was read. */
  lemma ExpirySafe(c: Config, ss: seq<State>, es: seq<Step>, k: nat, x: Snapshot, r: Row)
    requires IsRun(c, ss, es) && k < |es| && es[k].Expire?
    requires x in ss[k].snaps && x !in ss[k + 1].snaps
    ensures x.time < ss[k].now - c.keepSeconds * SECOND
    ensures Sound(c) && r in ss[k].phase.seen && Live(c, r, ss[k].phase.at) ==> x.id <= r.cursor
  {
    var s := ss[k];
    RunKeepsCutoffSafe(c, ss, es, k);
    ExpiredExactly(c, ss, es, k, x);
    assert Next(c, s, es[k], ss[k + 1]);
    SurvivingExactly(s.snaps, s.phase.cutoff, s.nextId - 1, x);
    if Sound(c) && r in s.phase.seen && Live(c, r, s.phase.at) {
      var j :| 0 <= j < |s.snaps| && s.snaps[j] == x;
      var i :| 0 <= i < |s.phase.seen| && s.phase.seen[i] == r;
    }
  }

  /** With settings that pass validation there is no further condition. */
  lemma ValidatedExpirySafe(v: Settings, ss: seq<State>, es: seq<Step>, k: nat, x: Snapshot, r: Row)
    requires Validates(v) && IsRun(ConfigOf(v), ss, es) && k < |es| && es[k].Expire?
    requires x in ss[k].snaps && x !in ss[k + 1].snaps
    ensures x.time < ss[k].now - ConfigOf(v).keepSeconds * SECOND
    ensures r in ss[k].phase.seen && Live(ConfigOf(v), r, ss[k].phase.at) ==> x.id <= r.cursor
  {
    ValidatedIsSound(v);
    ExpirySafe(ConfigOf(v), ss, es, k, x, r);
  }

  /** Soundness is exactly what is needed: in every other configuration, none of which passes
      validation, some run expires a snapshot that a live consumer has not read, because a commit can
      be older than a cutoff in the future. */
  lemma UnsoundLoses(c: Config) returns (ss: seq<State>, es: seq<Step>, x: Snapshot, r: Row)
    requires !Sound(c)
    ensures IsRun(c, ss, es) && |es| == 5 && es[4] == Expire
    ensures x in ss[4].snaps && x !in ss[5].snaps
    ensures r in ss[4].phase.seen && Live(c, r, ss[4].phase.at) && x.id > r.cursor
  {
    r := Row("reader", 0, 0);
    x := Snapshot(1, 0);
    var y, cutoff := Snapshot(2, 0), -c.keepSeconds * SECOND;
    var s0 := State(0, [r], [], 1, Idle);
    var s1 := s0.(phase := FloorRead([r], 0));
    var s2 := s1.(phase := Frozen(cutoff, [r], 0, [], 0, false));
    var s3 := s2.(snaps := [x], nextId := 2);
    var s4 := s3.(snaps := [x, y], nextId := 3);
    var s5 := s4.(snaps := Surviving([x, y], cutoff, 2), phase := Idle);
    ss := [s0, s1, s2, s3, s4, s5];
    es := [ReadFloor, Freeze(cutoff, false), Commit, Commit, Expire];
    SurvivingExactly([x, y], cutoff, 2, x);
  }

  /** Protection starts strictly past the cursor: in every configuration with a staleness window,
      the snapshot at a live consumer's own cursor can be expired. */
  lemma CursorSnapshotCanExpire(c: Config) returns (ss: seq<State>, es: seq<Step>, x: Snapshot, r: Row)
    requires c.staleSeconds > 0
    ensures IsRun(c, ss, es) && |es| == 3 && es[2] == Expire
    ensures x in ss[2].snaps && x !in ss[3].snaps
    ensures r in ss[2].phase.seen && Live(c, r, ss[2].phase.at) && x.id == r.cursor
  {
    var now := c.keepSeconds * SECOND + 1;
    r := Row("reader", 1, now);
    x := Snapshot(1, 0);
    var y := Snapshot(2, 1);
    var s0 := State(now, [r], [x, y], 3, Idle);
    var s1 := s0.(phase := FloorRead([r], now));
    var s2 := s1.(phase := Frozen(1, [r], now, [x, y], now, false));
    var s3 := s2.(snaps := Surviving([x, y], 1, 2), phase := Idle);
    ss := [s0, s1, s2, s3];
    es := [ReadFloor, Freeze(1, false), Expire];
    SurvivingExactly([x, y], 1, 2, x);
  }

  /** ... and exactly when it is: the snapshot at the cursor of a live consumer survives an expire
      step if and only if it is the current one, was within retention when the cutoff was frozen, or
      something a live consumer had not read then was no younger. */
  lemma CursorSnapshotSurvives(c: Config, ss: seq<State>, es: seq<Step>, k: nat, x: Snapshot, r: Row)
    requires IsRun(c, ss, es) && k < |es| && es[k].Expire? && x in ss[k].snaps
    requires ss[k].phase.Frozen? && r in ss[k].phase.seen && Live(c, r, ss[k].phase.at) && x.id == r.cursor
    ensures var s := ss[k];
            x in ss[k + 1].snaps
            <==> || x.id == s.nextId - 1
                 || x.time >= s.phase.now - c.keepSeconds * SECOND
                 || exists i, j ::
                      && 0 <= i < |s.phase.seen| && 0 <= j < |s.phase.snaps| && Live(c, s.phase.seen[i], s.phase.at)
                      && s.phase.snaps[j].id > s.phase.seen[i].cursor && s.phase.snaps[j].time <= x.time
  {
    ExpiredExactly(c, ss, es, k, x);
  }

  // ----- A consumer that keeps reporting loses nothing -----

  /** `who` has a row, and every row it has holds cursor v. */
  ghost predicate CursorIs(rows: seq<Row>, who: string, v: int) {
    && (exists i :: 0 <= i < |rows| && rows[i].consumer == who)
    && (forall i :: 0 <= i < |rows| && rows[i].consumer == who ==> rows[i].cursor == v)
  }

  /** Recording progress sets the consumer's cursor, whatever rows it had before, and nobody else's. */
  lemma RecordSetsCursor(rows: seq<Row>, who: string, v: int, now: int, other: string, u: int)
    ensures var rows' := Without(rows, who) + [Row(who, v, now)];
            CursorIs(rows', who, v) && (other != who ==> (CursorIs(rows, other, u) <==> CursorIs(rows', other, u)))
  {
    var rows' := Without(rows, who) + [Row(who, v, now)];
    assert rows'[|rows'| - 1].consumer == who;
    forall r: Row ensures r in rows' <==> r == Row(who, v, now) || (r in rows && r.consumer != who) {
      WithoutExactly(rows, who, r);
    }
    CursorByMembers(rows', who, v);
    CursorByMembers(rows, other, u);
    CursorByMembers(rows', other, u);
  }

  lemma CursorByMembers(rows: seq<Row>, who: string, v: int)
    ensures CursorIs(rows, who, v)
            <==> && (exists r :: r in rows && r.consumer == who)
                 && (forall r :: r in rows && r.consumer == who ==> r.cursor == v)
  {
    assert forall i :: 0 <= i < |rows| ==> rows[i] in rows;
  }

  /** Everything committed past the cursor is still in the catalog. */
  ghost predicate NothingLost(s: State, v: int) {
    forall id :: v < id < s.nextId ==> HasId(s.snaps, id)
  }

  ghost predicate HasId(snaps: seq<Snapshot>, id: int) {
    exists k :: 0 <= k < |snaps| && snaps[k].id == id
  }

  /** At every point of the run the consumer has a cursor, it never goes back, and whenever the
      floor is read its row is live. */
  ghost predicate Reliable(c: Config, ss: seq<State>, es: seq<Step>, who: string, vs: seq<int>) {
    && |vs| == |ss| == |es| + 1
    && (forall i :: 0 <= i < |ss| ==> CursorIs(ss[i].rows, who, vs[i]))
    && (forall i :: 0 <= i < |es| ==> vs[i] <= vs[i + 1])
    && (forall i, j :: 0 <= i < |es| && es[i].ReadFloor? && 0 <= j < |ss[i].rows| && ss[i].rows[j].consumer == who
          ==> Live(c, ss[i].rows[j], ss[i].now))
  }

  /** While a cutoff is pending, some live row the floor saw has a cursor no later than v. */
  ghost predicate FloorCovers(c: Config, s: State, v: int) {
    !s.phase.Idle? ==>
      exists i :: 0 <= i < |s.phase.seen| && Live(c, s.phase.seen[i], s.phase.at) && s.phase.seen[i].cursor <= v
  }

  lemma ReadFloorCovers(c: Config, s: State, who: string, v: int)
    requires CursorIs(s.rows, who, v)
    requires forall j :: 0 <= j < |s.rows| && s.rows[j].consumer == who ==> Live(c, s.rows[j], s.now)
    ensures FloorCovers(c, s.(phase := FloorRead(s.rows, s.now)), v)
  {
    var i :| 0 <= i < |s.rows| && s.rows[i].consumer == who;
    assert s.(phase := FloorRead(s.rows, s.now)).phase.seen[i] == s.rows[i];
  }

  lemma ExpireLosesNothing(c: Config, s: State, v: int, s': State)
    requires Sound(c) && CutoffSafe(c, s) && NothingLost(s, v) && FloorCovers(c, s, v) && Next(c, s, Expire, s')
    ensures NothingLost(s', v)
  {
    forall id | v < id < s'.nextId ensures HasId(s'.snaps, id) {
      assert HasId(s.snaps, id);
      var k :| 0 <= k < |s.snaps| && s.snaps[k].id == id;
      var x := s.snaps[k];
      SurvivingExactly(s.snaps, s.phase.cutoff, s.nextId - 1, x);
      var k' :| 0 <= k' < |s'.snaps| && s'.snaps[k'] == x;
    }
  }

  lemma CommitLosesNothing(s: State, v: int)
    requires NothingLost(s, v)
    ensures NothingLost(s.(snaps := s.snaps + [Snapshot(s.nextId, s.now)], nextId := s.nextId + 1), v)
  {
    var s' := s.(snaps := s.snaps + [Snapshot(s.nextId, s.now)], nextId := s.nextId + 1);
    assert s'.snaps[|s.snaps|].id == s.nextId;
    forall id | v < id < s'.nextId ensures HasId(s'.snaps, id) {
      if id < s.nextId {
        assert HasId(s.snaps, id);
        var k :| 0 <= k < |s.snaps| && s.snaps[k].id == id;
        assert s'.snaps[k].id == id;
      }
    }
  }

  /** Whole-run safety: a consumer that is live whenever a floor is read and never moves its cursor
      back keeps every snapshot past its cursor, through any number of cycles. */
  lemma {:induction false} ReliableConsumerLosesNothing(c: Config, ss: seq<State>, es: seq<Step>, who: string,
                                                        vs: seq<int>, i: nat)
    requires Sound(c) && IsRun(c, ss, es) && Reliable(c, ss, es, who, vs) && i < |ss|
    requires NothingLost(ss[0], vs[0])
    ensures NothingLost(ss[i], vs[i]) && FloorCovers(c, ss[i], vs[i])
  {
    if i > 0 {
      ReliableConsumerLosesNothing(c, ss, es, who, vs, i - 1);
      var s, e, s' := ss[i - 1], es[i - 1], ss[i];
      assert Next(c, s, e, s');
      match e
      case ReadFloor => ReadFloorCovers(c, s, who, vs[i - 1]);
      case Expire =>
        RunKeepsCutoffSafe(c, ss, es, i - 1);
        ExpireLosesNothing(c, s, vs[i - 1], s');
      case Commit => CommitLosesNothing(s, vs[i - 1]);
      case _ =>
    }
  }

  /** With settings that pass validation there is no further condition. */
  lemma ValidatedConsumerLosesNothing(v: Settings, ss: seq<State>, es: seq<Step>, who: string, vs: seq<int>, i: nat)
    requires Validates(v) && IsRun(ConfigOf(v), ss, es) && Reliable(ConfigOf(v), ss, es, who, vs) && i < |ss|
    requires NothingLost(ss[0], vs[0])
    ensures NothingLost(ss[i], vs[i])
  {
    ValidatedIsSound(v);
    ReliableConsumerLosesNothing(ConfigOf(v), ss, es, who, vs, i);
  }

  // ----- The data-loss report -----

  /** Snapshots past the cursor: what the consumer has yet to read. */
  function Backlog(snaps: seq<Snapshot>, cursor: int): nat {
    if snaps == [] then 0
    else Backlog(snaps[..|snaps| - 1], cursor) + if snaps[|snaps| - 1].id > cursor then 1 else 0
  }

  /** Snapshots past the cursor and older than the cutoff: what is reported as about to be lost. */
  function Reported(snaps: seq<Snapshot>, cursor: int, cutoff: int): nat {
    if snaps == [] then 0
    else
      var x := snaps[|snaps| - 1];
      Reported(snaps[..|snaps| - 1], cursor, cutoff) + if x.id > cursor && x.time < cutoff then 1 else 0
  }

  method UnconsumedExpiringCount(snaps: seq<Snapshot>, cursor: int, cutoff: int) returns (n: nat)
    ensures n == Reported(snaps, cursor, cutoff)
  {
    n := 0;
    for i := 0 to |snaps|
      invariant n == Reported(snaps[..i], cursor, cutoff)
    {
      assert snaps[..i + 1][..i] == snaps[..i];
      if snaps[i].id > cursor && snaps[i].time < cutoff {
        n := n + 1;
      }
    }
    assert snaps[..|snaps|] == snaps;
  }

  /** The current snapshot is past the cursor and older than the cutoff: reported but never expired. */
  ghost predicate HeadReported(snaps: seq<Snapshot>, cursor: int, cutoff: int, head: int) {
    exists i :: 0 <= i < |snaps| && snaps[i].id == head && head > cursor && snaps[i].time < cutoff
  }

  lemma HeadReportedNext(init: seq<Snapshot>, x: Snapshot, cursor: int, cutoff: int, head: int, nextId: int)
    requires DistinctIds(init + [x], nextId)
    ensures HeadReported(init + [x], cursor, cutoff, head)
            <==> if x.id == head then head > cursor && x.time < cutoff else HeadReported(init, cursor, cutoff, head)
    ensures x.id == head ==> !HeadReported(init, cursor, cutoff, head)
    ensures DistinctIds(init, nextId)
  {
    var snaps := init + [x];
    assert snaps[|init|] == x;
    assert forall i :: 0 <= i < |init| ==> snaps[i] == init[i];
  }

  lemma CountsNext(init: seq<Snapshot>, x: Snapshot, cursor: int, cutoff: int, head: int)
    ensures Backlog(init + [x], cursor) == Backlog(init, cursor) + if x.id > cursor then 1 else 0
    ensures Reported(init + [x], cursor, cutoff)
            == Reported(init, cursor, cutoff) + if x.id > cursor && x.time < cutoff then 1 else 0
    ensures Surviving(init + [x], cutoff, head)
            == Surviving(init, cutoff, head) + if Expires(x, cutoff, head) then [] else [x]
  {
    assert (init + [x])[..|init|] == init;
  }

  /** What the report says against what expiring at that cutoff really takes from the consumer. */
  lemma {:induction false} ReportVersusLoss(snaps: seq<Snapshot>, cursor: int, cutoff: int, head: int, nextId: int,
                                            kept: seq<Snapshot>)
    requires DistinctIds(snaps, nextId) && kept == Surviving(snaps, cutoff, head)
    ensures Reported(snaps, cursor, cutoff)
            == Backlog(snaps, cursor) - Backlog(kept, cursor)
               + if HeadReported(snaps, cursor, cutoff, head) then 1 else 0
    decreases |snaps|
  {
    if snaps != [] {
      var init, x := snaps[..|snaps| - 1], snaps[|snaps| - 1];
      var before := Surviving(init, cutoff, head);
      assert snaps == init + [x];
      HeadReportedNext(init, x, cursor, cutoff, head, nextId);
      ReportVersusLoss(init, cursor, cutoff, head, nextId, before);
      CountsNext(init, x, cursor, cutoff, head);
      CountsNext(before, x, cursor, cutoff, head);
      assert kept == if Expires(x, cutoff, head) then before else before + [x];
    }
  }

  /** In every run, for the cutoff an expire step uses: the report exceeds the snapshots that step
      takes from the consumer by one exactly when the current snapshot is past the cursor and older
      than the cutoff, and is exact if and only if it is not. */
  lemma ReportExactly(c: Config, ss: seq<State>, es: seq<Step>, k: nat, cursor: int)
    requires IsRun(c, ss, es) && k < |es| && es[k].Expire?
    ensures ss[k].phase.Frozen?
    ensures var s, lost := ss[k], Backlog(ss[k].snaps, cursor) - Backlog(ss[k + 1].snaps, cursor);
            var headCounted := HeadReported(s.snaps, cursor, s.phase.cutoff, s.nextId - 1);
            && Reported(s.snaps, cursor, s.phase.cutoff) == lost + (if headCounted then 1 else 0)
            && (Reported(s.snaps, cursor, s.phase.cutoff) == lost <==> !headCounted)
  {
    var s := ss[k];
    RunKeepsCutoffSafe(c, ss, es, k);
    assert Next(c, s, es[k], ss[k + 1]);
    ReportVersusLoss(s.snaps, cursor, s.phase.cutoff, s.nextId - 1, s.nextId, ss[k + 1].snaps);
  }

  lemma CurrentAlone(x: Snapshot)
    requires x == Snapshot(5, 0)
    ensures Reported([x], 4, 10) == 1 && Surviving([x], 10, 5) == [x]
  {
    assert [x][..0] == [];
    assert Surviving([x], 10, 5) == [] + [x] == [x];
  }

  /** A loss is reported where there is none: in every configuration, a run whose expire step removes
      nothing while the report for its cutoff is one, the only snapshot being old, unread and current. */
  lemma ReportCanOverstate(c: Config) returns (ss: seq<State>, es: seq<Step>, cursor: int)
    ensures IsRun(c, ss, es) && |es| == 3 && es[2] == Expire && ss[2].phase.Frozen?
    ensures Reported(ss[2].snaps, cursor, ss[2].phase.cutoff) == 1
    ensures ss[3].snaps == ss[2].snaps && Backlog(ss[2].snaps, cursor) - Backlog(ss[3].snaps, cursor) == 0
  {
    cursor := 4;
    var now, x := c.keepSeconds * SECOND + 10, Snapshot(5, 0);
    var s0 := State(now, [], [x], 6, Idle);
    var s1 := s0.(phase := FloorRead([], now));
    var s2 := s1.(phase := Frozen(10, [], now, [x], now, false));
    var s3 := s2.(phase := Idle);
    CurrentAlone(x);
    ss := [s0, s1, s2, s3];
    es := [ReadFloor, Freeze(10, false), Expire];
  }
}
