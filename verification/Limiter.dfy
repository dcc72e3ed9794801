/** The per-remote rate limiter: a bounded, evicting, sharded cache of token buckets. */
module Limiter {

  const MAX_KEYS: nat := 100_000
  const SHARDS: nat := 64
  const SHARD_MAX: nat := MAX_KEYS / SHARDS

  /** rps > 0 and burst >= 1, as the middleware guarantees. */
  datatype Params = Params(rps: real, burst: nat)

  predicate Sane(p: Params) {
    p.rps > 0.0 && p.burst >= 1
  }

  /** A token bucket as it was left by its last granted request. */
  datatype Bucket = Bucket(tokens: real, last: real)

  function Cap(p: Params, x: real): real {
    if x < p.burst as real then x else p.burst as real
  }

  /** Tokens in the bucket at time t. */
  function Level(p: Params, b: Bucket, t: real): real {
    Cap(p, b.tokens + p.rps * (if b.last < t then t - b.last else 0.0))
  }

  function Fresh(p: Params, t: real): Bucket {
    Bucket(p.burst as real, t)
  }

  function Grants(p: Params, b: Bucket, t: real): bool {
    Level(p, b, t) >= 1.0
  }

  /** The bucket after one request at time t: a refusal leaves it untouched. */
  function After(p: Params, b: Bucket, t: real): Bucket {
    if Grants(p, b, t) then Bucket(Level(p, b, t) - 1.0, t) else b
  }

  type Shard = map<string, Bucket>

  // ----- Eviction -----

  function Hot(p: Params, s: Shard, now: real): Shard {
    map k | k in s && Level(p, s[k], now) < p.burst as real :: s[k]
  }

  /** What evictLocked leaves: exactly the buckets that are not full if that makes room; otherwise
      it also drops an arbitrary tenth of a shard from them. */
  ghost predicate Evicted(p: Params, s: Shard, now: real, s': Shard, dropped: bool) {
    var hot := Hot(p, s, now);
    if |hot| < SHARD_MAX then !dropped && s' == hot
    else
      && dropped && s'.Keys <= hot.Keys && |s'| == |hot| - SHARD_MAX / 10
      && (forall k :: k in s' ==> s'[k] == hot[k])
  }

  method EvictLocked(p: Params, s: Shard, now: real) returns (s': Shard, dropped: bool)
    requires |s| <= SHARD_MAX
    ensures Evicted(p, s, now, s', dropped)
    ensures |s'| < SHARD_MAX
  {
    s', dropped := s, false;
    var todo := s.Keys;
    while todo != {}
      invariant todo <= s.Keys
      invariant s' == map k | k in s && (k in todo || Level(p, s[k], now) < p.burst as real) :: s[k]
      decreases todo
    {
      var key :| key in todo;
      todo := todo - {key};
      if Level(p, s[key], now) >= p.burst as real {
        s' := s' - {key};
      }
    }
    assert s' == Hot(p, s, now);
    ghost var hot := s';
    SubmapSmaller(hot, s);
    if |s'| < SHARD_MAX {
      return;
    }
    dropped := true;
    var count := 0;
    while count < SHARD_MAX / 10
      invariant count <= SHARD_MAX / 10 && |s'| == |hot| - count
      invariant s'.Keys <= hot.Keys && forall k :: k in s' ==> s'[k] == hot[k]
    {
      NotEmpty(s');
      var key :| key in s';
      RemoveOne(s', key);
      s' := s' - {key};
      count := count + 1;
    }
  }

  lemma NotEmpty(s: Shard)
    requires |s| > 0
    ensures exists k :: k in s
  {
    assert |s.Keys| > 0;
    var k :| k in s.Keys;
    assert k in s;
  }

  lemma RemoveOne(s: Shard, k: string)
    requires k in s
    ensures |s - {k}| == |s| - 1
  {
    assert (s - {k}).Keys == s.Keys - {k};
  }

  lemma SubmapSmaller(a: Shard, b: Shard)
    requires a.Keys <= b.Keys
    ensures |a| <= |b|
  {
    KeysSmaller(a.Keys, b.Keys);
  }

  lemma {:induction false} KeysSmaller(a: set<string>, b: set<string>)
    requires a <= b
    ensures |a| <= |b|
  {
    if a != {} {
      var k :| k in a;
      KeysSmaller(a - {k}, b - {k});
    }
  }

  // ----- The limiter -----

  /** hash stands for FNV-1a; nothing below depends on which function it is. */
  function ShardOf(hash: string -> nat, key: string): nat {
    hash(key) % SHARDS
  }

  class RemoteLimiter {
    var shards: seq<Shard>
    const p: Params
    const hash: string -> nat

    constructor (p: Params, hash: string -> nat)
      ensures this.p == p && this.hash == hash
      ensures shards == seq(SHARDS, _ => map[])
    {
      this.p, this.hash := p, hash;
      shards := seq(SHARDS, _ => map[]);
    }

    method Allow(key: string, now: real) returns (ok: bool, ghost room: Room)
      requires Bounded(shards)
      modifies this
      ensures Allowed(p, hash, old(shards), key, now, room, shards, ok)
      ensures Bounded(shards)
    {
      var i := ShardOf(hash, key);
      var s := shards[i];
      room := Room(s, false);
      var b := Fresh(p, now);
      if key in s {
        b := s[key];
      } else if |s| >= SHARD_MAX {
        var dropped;
        s, dropped := EvictLocked(p, s, now);
        room := Room(s, dropped);
      }
      InsertSize(s, key, After(p, b, now));
      ok := Grants(p, b, now);
      shards := shards[i := s[key := After(p, b, now)]];
    }
  }

  lemma InsertSize(s: Shard, key: string, b: Bucket)
    ensures |s[key := b]| == if key in s then |s| else |s| + 1
  {
    assert s[key := b].Keys == s.Keys + {key};
  }

  /** Each shard stays within its share of the key budget. */
  ghost predicate Bounded(shards: seq<Shard>) {
    |shards| == SHARDS && forall i :: 0 <= i < SHARDS ==> |shards[i]| <= SHARD_MAX
  }

  /** What making room left of the shard, and whether it took the arbitrary-drop branch. */
  datatype Room = Room(kept: Shard, dropped: bool)

  /** One request as a relation: `room` is any outcome the eviction may have. */
  ghost predicate Allowed(p: Params, hash: string -> nat, shards: seq<Shard>, key: string, now: real, room: Room,
                          shards': seq<Shard>, ok: bool)
  {
    && |shards| == SHARDS
    && var i := ShardOf(hash, key);
       var s := shards[i];
       var b := if key in s then s[key] else Fresh(p, now);
       && ok == Grants(p, b, now)
       && (if key !in s && |s| >= SHARD_MAX then Evicted(p, s, now, room.kept, room.dropped)
           else room == Room(s, false))
       && shards' == shards[i := room.kept[key := After(p, b, now)]]
  }

  // ----- Time -----

  /** A bucket's future depends only on its level now. */
  lemma LevelAdvances(p: Params, b: Bucket, t: real, t': real)
    requires Sane(p) && b.last <= t <= t'
    ensures Level(p, b, t') == Cap(p, Level(p, b, t) + p.rps * (t' - t))
  {
    assert p.rps * (t' - b.last) == p.rps * (t - b.last) + p.rps * (t' - t);
    assert p.rps * (t' - t) >= 0.0;
  }

  lemma TakeOne(p: Params, b: Bucket, t: real)
    requires Sane(p) && b.last <= t
    ensures After(p, b, t).last <= t
    ensures Level(p, After(p, b, t), t) == if Grants(p, b, t) then Level(p, b, t) - 1.0 else Level(p, b, t)
  {
  }

  // ----- Agreement with an unbounded limiter -----

  /** The level a remote sees: a missing bucket behaves as a full one. */
  function Seen(p: Params, m: Shard, key: string, t: real): real {
    if key in m then Level(p, m[key], t) else p.burst as real
  }

  ghost predicate Past(m: Shard, now: real) {
    forall k :: k in m ==> m[k].last <= now
  }

  /** Every remote sees the same level in its shard as in the unbounded map. */
  ghost predicate Agrees(p: Params, hash: string -> nat, shards: seq<Shard>, all: Shard, now: real) {
    && |shards| == SHARDS && Past(all, now)
    && (forall i :: 0 <= i < SHARDS ==> Past(shards[i], now))
    && (forall k :: Seen(p, shards[ShardOf(hash, k)], k, now) == Seen(p, all, k, now))
  }

  lemma SeenAdvances(p: Params, m: Shard, key: string, t: real, t': real)
    requires Sane(p) && Past(m, t) && t <= t'
    ensures Seen(p, m, key, t') == Cap(p, Seen(p, m, key, t) + p.rps * (t' - t))
  {
    if key in m { LevelAdvances(p, m[key], t, t'); } else { assert p.rps * (t' - t) >= 0.0; }
  }

  lemma AgreesLater(p: Params, hash: string -> nat, shards: seq<Shard>, all: Shard, t: real, t': real)
    requires Sane(p) && Agrees(p, hash, shards, all, t) && t <= t'
    ensures Agrees(p, hash, shards, all, t')
  {
    forall k ensures Seen(p, shards[ShardOf(hash, k)], k, t') == Seen(p, all, k, t') {
      SeenAdvances(p, shards[ShardOf(hash, k)], k, t, t');
      SeenAdvances(p, all, k, t, t');
    }
  }

  /** Evicting full buckets is invisible to every remote. */
  lemma HotLooksTheSame(p: Params, s: Shard, now: real, k: string)
    ensures Seen(p, Hot(p, s, now), k, now) == Seen(p, s, k, now)
  {
  }

  /** One request answered alike by the bounded and the unbounded limiter, as long as the
      arbitrary-drop branch is not taken, and they still agree afterwards. */
  lemma RequestAgrees(p: Params, hash: string -> nat, shards: seq<Shard>, all: Shard, key: string, now: real,
                      room: Room, shards': seq<Shard>, ok: bool)
    requires Sane(p) && Agrees(p, hash, shards, all, now)
    requires Allowed(p, hash, shards, key, now, room, shards', ok) && !room.dropped
    ensures var b := if key in all then all[key] else Fresh(p, now);
            ok == Grants(p, b, now) && Agrees(p, hash, shards', all[key := After(p, b, now)], now)
  {
    var i := ShardOf(hash, key);
    var s := shards[i];
    var mine := if key in s then s[key] else Fresh(p, now);
    var theirs := if key in all then all[key] else Fresh(p, now);
    assert Level(p, mine, now) == Seen(p, s, key, now) == Seen(p, all, key, now) == Level(p, theirs, now);
    TakeOne(p, mine, now);
    TakeOne(p, theirs, now);
    var all' := all[key := After(p, theirs, now)];
    forall k ensures Seen(p, shards'[ShardOf(hash, k)], k, now) == Seen(p, all', k, now) {
      HotLooksTheSame(p, s, now, k);
      assert Seen(p, shards[ShardOf(hash, k)], k, now) == Seen(p, all, k, now);
    }
  }

  datatype Request = Request(key: string, now: real)

  /** A run of the bounded limiter from its initial state; time does not go back. */
  ghost predicate IsRun(p: Params, hash: string -> nat, rs: seq<Request>, sss: seq<seq<Shard>>, oks: seq<bool>,
                        rooms: seq<Room>) {
    && |sss| == |rs| + 1 && |oks| == |rooms| == |rs|
    && sss[0] == seq(SHARDS, _ => map[])
    && (forall i :: 0 <= i < |rs| ==> Allowed(p, hash, sss[i], rs[i].key, rs[i].now, rooms[i], sss[i + 1], oks[i]))
    && (forall i :: 0 < i < |rs| ==> rs[i - 1].now <= rs[i].now)
  }

  /** The unbounded per-key limiter after the first i requests. */
  function Reference(p: Params, rs: seq<Request>, i: nat): Shard
    requires i <= |rs|
  {
    if i == 0 then map[]
    else
      var m, r := Reference(p, rs, i - 1), rs[i - 1];
      m[r.key := After(p, if r.key in m then m[r.key] else Fresh(p, r.now), r.now)]
  }

  /** ... and its answer to request i. */
  function ReferenceGrants(p: Params, rs: seq<Request>, i: nat): bool
    requires i < |rs|
  {
    var m, r := Reference(p, rs, i), rs[i];
    Grants(p, if r.key in m then m[r.key] else Fresh(p, r.now), r.now)
  }

  lemma {:induction false} RunAgrees(p: Params, hash: string -> nat, rs: seq<Request>, sss: seq<seq<Shard>>,
                                     oks: seq<bool>, rooms: seq<Room>, i: nat)
    requires Sane(p) && IsRun(p, hash, rs, sss, oks, rooms) && i < |rs|
    requires forall j :: 0 <= j <= i ==> !rooms[j].dropped
    ensures oks[i] == ReferenceGrants(p, rs, i)
    ensures Agrees(p, hash, sss[i + 1], Reference(p, rs, i + 1), rs[i].now)
  {
    var now := rs[i].now;
    if i == 0 {
      assert Agrees(p, hash, sss[0], map[], now);
    } else {
      RunAgrees(p, hash, rs, sss, oks, rooms, i - 1);
      AgreesLater(p, hash, sss[i], Reference(p, rs, i), rs[i - 1].now, now);
    }
    RequestAgrees(p, hash, sss[i], Reference(p, rs, i), rs[i].key, now, rooms[i], sss[i + 1], oks[i]);
  }

  lemma RequestStaysBounded(p: Params, hash: string -> nat, shards: seq<Shard>, key: string, now: real, room: Room,
                            shards': seq<Shard>, ok: bool)
    requires Bounded(shards) && Allowed(p, hash, shards, key, now, room, shards', ok)
    ensures Bounded(shards')
  {
    var s := shards[ShardOf(hash, key)];
    SubmapSmaller(Hot(p, s, now), s);
    var b := if key in s then s[key] else Fresh(p, now);
    InsertSize(room.kept, key, After(p, b, now));
  }

  /** The memory bound, on every run and whatever is dropped. */
  lemma {:induction false} RunStaysBounded(p: Params, hash: string -> nat, rs: seq<Request>, sss: seq<seq<Shard>>,
                                           oks: seq<bool>, rooms: seq<Room>, i: nat)
    requires IsRun(p, hash, rs, sss, oks, rooms) && i < |sss|
    ensures Bounded(sss[i])
  {
    if i > 0 {
      RunStaysBounded(p, hash, rs, sss, oks, rooms, i - 1);
      RequestStaysBounded(p, hash, sss[i - 1], rs[i - 1].key, rs[i - 1].now, rooms[i - 1], sss[i], oks[i - 1]);
    }
  }

  // ----- Exactly which buckets may be dropped -----

  function Answers(p: Params, b: Bucket, ts: seq<real>): (oks: seq<bool>)
    ensures |oks| == |ts|
    decreases |ts|
  {
    if ts == [] then [] else [Grants(p, b, ts[0])] + Answers(p, After(p, b, ts[0]), ts[1..])
  }

  ghost predicate Future(ts: seq<real>, now: real) {
    (forall i :: 0 <= i < |ts| ==> now <= ts[i]) && (forall i, j :: 0 <= i < j < |ts| ==> ts[i] <= ts[j])
  }

  lemma {:induction false} SameLevelSameAnswers(p: Params, a: Bucket, b: Bucket, ts: seq<real>, now: real)
    requires Sane(p) && a.last <= now && b.last <= now && Level(p, a, now) == Level(p, b, now) && Future(ts, now)
    ensures Answers(p, a, ts) == Answers(p, b, ts)
    decreases |ts|
  {
    if ts != [] {
      var t := ts[0];
      LevelAdvances(p, a, now, t);
      LevelAdvances(p, b, now, t);
      TakeOne(p, a, t);
      TakeOne(p, b, t);
      SameLevelSameAnswers(p, After(p, a, t), After(p, b, t), ts[1..], t);
    }
  }

  ghost predicate AllGranted(oks: seq<bool>) {
    forall i :: 0 <= i < |oks| ==> oks[i]
  }

  /** n simultaneous requests are all granted exactly when the bucket holds n tokens. */
  lemma {:induction false} BurstGranted(p: Params, b: Bucket, now: real, n: nat)
    requires Sane(p) && b.last <= now && Level(p, b, now) >= 0.0
    ensures AllGranted(Answers(p, b, seq(n, _ => now))) <==> n as real <= Level(p, b, now)
    decreases n
  {
    if n > 0 {
      var ts := seq(n, _ => now);
      assert ts[1..] == seq(n - 1, _ => now);
      TakeOne(p, b, now);
      var rest := Answers(p, After(p, b, now), ts[1..]);
      assert Answers(p, b, ts) == [Grants(p, b, now)] + rest;
      if Grants(p, b, now) {
        BurstGranted(p, After(p, b, now), now, n - 1);
        assert AllGranted([true] + rest) <==> AllGranted(rest) by {
          assert forall i :: 0 <= i < |rest| ==> ([true] + rest)[i + 1] == rest[i];
        }
      } else {
        assert !Answers(p, b, ts)[0];
      }
    }
  }

  /** Forgetting a bucket is invisible for all future requests if and only if it is full. */
  lemma OnlyFullBucketsAreForgettable(p: Params, b: Bucket, now: real)
    requires Sane(p) && b.last <= now && b.tokens >= 0.0
    ensures (forall ts :: Future(ts, now) ==> Answers(p, b, ts) == Answers(p, Fresh(p, now), ts))
            <==> Level(p, b, now) >= p.burst as real
  {
    var full := Fresh(p, now);
    assert Level(p, full, now) == p.burst as real;
    assert p.rps * (now - b.last) >= 0.0;
    if Level(p, b, now) >= p.burst as real {
      forall ts | Future(ts, now) ensures Answers(p, b, ts) == Answers(p, full, ts) {
        SameLevelSameAnswers(p, b, full, ts, now);
      }
    } else {
      var ts := seq(p.burst, _ => now);
      BurstGranted(p, b, now, p.burst);
      BurstGranted(p, full, now, p.burst);
      assert Future(ts, now);
    }
  }

  // ----- What a dropped remote loses -----

  function AfterAll(p: Params, b: Bucket, ts: seq<real>): Bucket
    decreases |ts|
  {
    if ts == [] then b else AfterAll(p, After(p, b, ts[0]), ts[1..])
  }

  lemma {:induction false} AnswersJoin(p: Params, b: Bucket, ts: seq<real>, us: seq<real>)
    ensures Answers(p, b, ts + us) == Answers(p, b, ts) + Answers(p, AfterAll(p, b, ts), us)
    decreases |ts|
  {
    if ts == [] {
      assert ts + us == us;
    } else {
      assert (ts + us)[1..] == ts[1..] + us;
      AnswersJoin(p, After(p, b, ts[0]), ts[1..], us);
    }
  }

  /** Enough simultaneous requests take all k whole tokens and leave the fraction f. */
  lemma {:induction false} Drained(p: Params, b: Bucket, t: real, n: nat, k: nat, f: real, d: Bucket)
    requires Sane(p) && b.last <= t && k <= n && 0.0 <= f < 1.0 && Level(p, b, t) == k as real + f
    requires d == AfterAll(p, b, seq(n, _ => t))
    ensures d.last <= t && Level(p, d, t) == f
    decreases n
  {
    if n > 0 {
      var ts := seq(n, _ => t);
      assert ts[0] == t && ts[1..] == seq(n - 1, _ => t);
      TakeOne(p, b, t);
      Drained(p, After(p, b, t), t, n - 1, if k > 0 then k - 1 else 0, f, d);
    }
  }

  /** A wait that refills x tokens. */
  function WaitFor(p: Params, x: real): real
    requires Sane(p)
  {
    x / p.rps
  }

  lemma WaitRefills(p: Params, b: Bucket, t: real, x: real)
    requires Sane(p) && b.last <= t && x >= 0.0
    ensures WaitFor(p, x) >= 0.0
    ensures Level(p, b, t + WaitFor(p, x)) == Cap(p, Level(p, b, t) + x)
  {
    var d := WaitFor(p, x);
    assert p.rps * d == x;
    assert d >= 0.0;
    LevelAdvances(p, b, t, t + d);
  }

  /** Some request of `ts` is granted to the kept bucket and refused to a fresh one. */
  ghost predicate Loses(p: Params, b: Bucket, now: real, ts: seq<real>) {
    exists i :: 0 <= i < |ts| && Answers(p, b, ts)[i] && !Answers(p, Fresh(p, now), ts)[i]
  }

  /** From k whole tokens and a fraction f, below the burst: empty both buckets, then ask as soon as
      the kept one has a whole token again. */
  lemma LosingRequests(p: Params, b: Bucket, full: Bucket, t: real, k: nat, f: real) returns (ts: seq<real>)
    requires Sane(p) && b.last <= t && full.last <= t && Level(p, full, t) == p.burst as real
    requires k < p.burst && 0.0 < f < 1.0 && Level(p, b, t) == k as real + f
    ensures |ts| == p.burst + 1 && Future(ts, t)
    ensures Answers(p, b, ts)[p.burst] && !Answers(p, full, ts)[p.burst]
  {
    var drain := seq(p.burst, _ => t);
    var kept, other := AfterAll(p, b, drain), AfterAll(p, full, drain);
    Drained(p, b, t, p.burst, k, f, kept);
    Drained(p, full, t, p.burst, p.burst, 0.0, other);
    WaitRefills(p, kept, t, 1.0 - f);
    WaitRefills(p, other, t, 1.0 - f);
    var last := t + WaitFor(p, 1.0 - f);
    ts := drain + [last];
    AnswersJoin(p, b, drain, [last]);
    AnswersJoin(p, full, drain, [last]);
    assert Answers(p, kept, [last]) == [true] && Answers(p, other, [last]) == [false];
  }

  lemma WholeAndFraction(x: real, n: nat) returns (k: nat, f: real, more: real)
    requires 0.0 <= x < n as real
    ensures k < n && 0.0 < f < 1.0 && more >= 0.0 && x + more == k as real + f
  {
    k, f, more := x.Floor, x - x.Floor as real, 0.0;
    if f == 0.0 { f, more := 0.5, 0.5; }
  }

  lemma RefillNotNegative(p: Params, d: real)
    requires Sane(p) && d >= 0.0
    ensures p.rps * d >= 0.0
  {
  }

  /** Below the burst there are always requests the dropped remote loses. */
  lemma DroppedCanLose(p: Params, b: Bucket, now: real) returns (ts: seq<real>)
    requires Sane(p) && b.last <= now && b.tokens >= 0.0 && Level(p, b, now) < p.burst as real
    ensures Future(ts, now) && Loses(p, b, now, ts)
  {
    RefillNotNegative(p, now - b.last);
    var k, f, more := WholeAndFraction(Level(p, b, now), p.burst);
    var t, full := now + WaitFor(p, more), Fresh(p, now);
    WaitRefills(p, b, now, more);
    WaitRefills(p, full, now, more);
    ts := LosingRequests(p, b, full, t, k, f);
  }

  /** Exactly when dropping a bucket can cost its remote a request: there is no future in which a
      request granted to the kept bucket is refused to a fresh one if and only if the bucket is full. */
  lemma DroppingIsKindExactly(p: Params, b: Bucket, now: real)
    requires Sane(p) && b.last <= now && b.tokens >= 0.0
    ensures (forall ts :: Future(ts, now) ==> !Loses(p, b, now, ts)) <==> Level(p, b, now) >= p.burst as real
  {
    if Level(p, b, now) >= p.burst as real {
      forall ts | Future(ts, now) ensures !Loses(p, b, now, ts) {
        SameLevelSameAnswers(p, b, Fresh(p, now), ts, now);
      }
    } else {
      var ts := DroppedCanLose(p, b, now);
    }
  }

  /** One such loss: with a burst of one and a token per second, a bucket emptied half a second ago
      refuses now and grants half a second later; a fresh one grants now and refuses then. */
  lemma DroppingIsNotAlwaysKinder(p: Params, now: real)
    requires p == Params(1.0, 1)
    ensures var stored := After(p, Fresh(p, now - 0.5), now - 0.5);
            && Answers(p, stored, [now, now + 0.5]) == [false, true]
            && Answers(p, Fresh(p, now), [now, now + 0.5]) == [true, false]
  {
    var stored := After(p, Fresh(p, now - 0.5), now - 0.5);
    assert stored == Bucket(0.0, now - 0.5);
    TwoAnswers(p, stored, now, now + 0.5);
    TwoAnswers(p, Fresh(p, now), now, now + 0.5);
  }

  lemma TwoAnswers(p: Params, b: Bucket, t: real, u: real)
    ensures Answers(p, b, [t, u]) == [Grants(p, b, t), Grants(p, After(p, b, t), u)]
  {
    assert [t, u][1..] == [u] && [u][1..] == [];
    assert Answers(p, After(p, b, t), [u]) == [Grants(p, After(p, b, t), u)];
  }

  // ----- What a dropped remote gains -----

  function One(ok: bool): nat {
    if ok then 1 else 0
  }

  /** `mine` has granted `gap` more requests than `theirs`, and lacks at most that many tokens. */
  ghost predicate Ahead(mine: real, theirs: real, gap: int) {
    gap >= 0 && mine + gap as real >= theirs
  }

  lemma TakeStaysAhead(p: Params, mine: Bucket, theirs: Bucket, now: real, gap: int)
    requires Sane(p) && mine.last <= now && theirs.last <= now && Ahead(Level(p, mine, now), Level(p, theirs, now), gap)
    ensures Ahead(Level(p, After(p, mine, now), now), Level(p, After(p, theirs, now), now),
                  gap + One(Grants(p, mine, now)) - One(Grants(p, theirs, now)))
  {
    TakeOne(p, mine, now);
    TakeOne(p, theirs, now);
  }

  lemma WaitStaysAhead(p: Params, mine: real, theirs: real, gap: int, x: real)
    requires Ahead(mine, theirs, gap) && x >= 0.0
    ensures Ahead(Cap(p, mine + x), Cap(p, theirs + x), gap)
  {
  }

  function Granted(oks: seq<bool>): nat {
    if oks == [] then 0 else One(oks[0]) + Granted(oks[1..])
  }

  lemma {:induction false} AheadGrantsMore(p: Params, mine: Bucket, theirs: Bucket, now: real, ts: seq<real>, gap: int)
    requires Sane(p) && mine.last <= now && theirs.last <= now && Future(ts, now)
    requires Ahead(Level(p, mine, now), Level(p, theirs, now), gap)
    ensures Granted(Answers(p, mine, ts)) + gap >= Granted(Answers(p, theirs, ts))
    decreases |ts|
  {
    if ts != [] {
      var t := ts[0];
      LevelAdvances(p, mine, now, t);
      LevelAdvances(p, theirs, now, t);
      RefillNotNegative(p, t - now);
      WaitStaysAhead(p, Level(p, mine, now), Level(p, theirs, now), gap, p.rps * (t - now));
      TakeStaysAhead(p, mine, theirs, t, gap);
      TakeOne(p, mine, t);
      TakeOne(p, theirs, t);
      AheadGrantsMore(p, After(p, mine, t), After(p, theirs, t), t, ts[1..],
                      gap + One(Grants(p, mine, t)) - One(Grants(p, theirs, t)));
    }
  }

  /** What does hold when a bucket is dropped: over every future, its remote is granted in total at
      least as many requests as with the bucket kept. */
  lemma DroppingGrantsMoreInTotal(p: Params, b: Bucket, now: real, ts: seq<real>)
    requires Sane(p) && b.last <= now && Future(ts, now)
    ensures Granted(Answers(p, Fresh(p, now), ts)) >= Granted(Answers(p, b, ts))
  {
    AheadGrantsMore(p, Fresh(p, now), b, now, ts, 0);
  }

  /** Requests for `key` granted among the first i. */
  function GrantedTo(key: string, rs: seq<Request>, oks: seq<bool>, i: nat): nat
    requires i <= |rs| == |oks|
  {
    if i == 0 then 0 else GrantedTo(key, rs, oks, i - 1) + One(rs[i - 1].key == key && oks[i - 1])
  }

  function ReferenceOks(p: Params, rs: seq<Request>): seq<bool> {
    seq(|rs|, i requires 0 <= i < |rs| => ReferenceGrants(p, rs, i))
  }

  /** The bounded limiter is ahead of the unbounded one for `key`, by `gap` grants. */
  ghost predicate AheadFor(p: Params, hash: string -> nat, shards: seq<Shard>, all: Shard, now: real, key: string,
                           gap: int) {
    && |shards| == SHARDS && Past(all, now) && Past(shards[ShardOf(hash, key)], now)
    && Ahead(Seen(p, shards[ShardOf(hash, key)], key, now), Seen(p, all, key, now), gap)
  }

  lemma AheadLater(p: Params, hash: string -> nat, shards: seq<Shard>, all: Shard, t: real, t': real, key: string,
                   gap: int)
    requires Sane(p) && AheadFor(p, hash, shards, all, t, key, gap) && t <= t'
    ensures AheadFor(p, hash, shards, all, t', key, gap)
  {
    var s := shards[ShardOf(hash, key)];
    SeenAdvances(p, s, key, t, t');
    SeenAdvances(p, all, key, t, t');
    RefillNotNegative(p, t' - t);
    WaitStaysAhead(p, Seen(p, s, key, t), Seen(p, all, key, t), gap, p.rps * (t' - t));
  }

  /** Making room only ever raises the level another remote sees. */
  lemma RoomIsKind(p: Params, s: Shard, now: real, room: Room, k: string)
    requires room == Room(s, false) || Evicted(p, s, now, room.kept, room.dropped)
    ensures Seen(p, room.kept, k, now) >= Seen(p, s, k, now)
    ensures k in room.kept ==> k in s && room.kept[k] == s[k]
  {
  }

  lemma RequestStaysAhead(p: Params, hash: string -> nat, shards: seq<Shard>, all: Shard, r: Request,
                          room: Room, shards': seq<Shard>, ok: bool, k: string, gap: int)
    requires Sane(p) && AheadFor(p, hash, shards, all, r.now, k, gap)
    requires Allowed(p, hash, shards, r.key, r.now, room, shards', ok)
    ensures var b := if r.key in all then all[r.key] else Fresh(p, r.now);
            AheadFor(p, hash, shards', all[r.key := After(p, b, r.now)], r.now, k,
                     if k == r.key then gap + One(ok) - One(Grants(p, b, r.now)) else gap)
  {
    var s := shards[ShardOf(hash, r.key)];
    var mine := if r.key in s then s[r.key] else Fresh(p, r.now);
    var theirs := if r.key in all then all[r.key] else Fresh(p, r.now);
    RoomIsKind(p, s, r.now, room, k);
    forall q | q in room.kept ensures room.kept[q] == s[q] && q in s { RoomIsKind(p, s, r.now, room, q); }
    if k == r.key { TakeStaysAhead(p, mine, theirs, r.now, gap); }
  }

  lemma {:induction false} RunStaysAhead(p: Params, hash: string -> nat, rs: seq<Request>, sss: seq<seq<Shard>>,
                                         oks: seq<bool>, rooms: seq<Room>, key: string, i: nat)
    requires Sane(p) && IsRun(p, hash, rs, sss, oks, rooms) && i < |rs|
    ensures AheadFor(p, hash, sss[i + 1], Reference(p, rs, i + 1), rs[i].now, key,
                     GrantedTo(key, rs, oks, i + 1) - GrantedTo(key, rs, ReferenceOks(p, rs), i + 1))
  {
    var now, want := rs[i].now, ReferenceOks(p, rs);
    var gap := GrantedTo(key, rs, oks, i) - GrantedTo(key, rs, want, i);
    if i > 0 {
      RunStaysAhead(p, hash, rs, sss, oks, rooms, key, i - 1);
      AheadLater(p, hash, sss[i], Reference(p, rs, i), rs[i - 1].now, now, key, gap);
    }
    RequestStaysAhead(p, hash, sss[i], Reference(p, rs, i), rs[i], rooms[i], sss[i + 1], oks[i], key, gap);
    assert want[i] == ReferenceGrants(p, rs, i);
  }

  /** On every run, whatever is dropped, every remote is granted in total at least as many requests as
      by an unbounded limiter. */
  lemma DroppingNeverCostsInTotal(p: Params, hash: string -> nat, rs: seq<Request>, sss: seq<seq<Shard>>,
                                  oks: seq<bool>, rooms: seq<Room>, key: string, i: nat)
    requires Sane(p) && IsRun(p, hash, rs, sss, oks, rooms) && i <= |rs|
    ensures GrantedTo(key, rs, oks, i) >= GrantedTo(key, rs, ReferenceOks(p, rs), i)
  {
    if i > 0 { RunStaysAhead(p, hash, rs, sss, oks, rooms, key, i - 1); }
  }
}
