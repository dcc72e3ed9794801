/** Provisioning the partition streams, and the guard against leftovers of another layout. */
module Streams {
  import opened Routing

  predicate IsWal(name: string) {
    STREAM_NAME <= name
  }

  ghost predicate Expected(name: string, n: int) {
    exists i: nat :: i < n && name == StreamNameFor(i, n)
  }

  /** No WAL stream but those of the layout of n partitions. */
  ghost predicate GuardPasses(streams: map<string, string>, n: int) {
    forall name :: name in streams && IsWal(name) ==> Expected(name, n)
  }

  /** The broker's streams after the first k of n partitions were created or updated. */
  function Provisioned(streams: map<string, string>, n: int, k: nat): map<string, string> {
    if k == 0 then streams else Provisioned(streams, n, k - 1)[StreamNameFor(k - 1, n) := PartitionFilter(k - 1, n)]
  }

  /** The broker: each stream's name and its one subject filter. */
  class Broker {
    var streams: map<string, string>

    constructor ()
      ensures streams == map[]
    {
      streams := map[];
    }

    method CheckStaleStreams(n: nat, listingFails: bool) returns (ok: bool)
      ensures ok <==> GuardPasses(streams, n) && !listingFails
    {
      var expected: set<string> := {};
      for i := 0 to n
        invariant forall name :: name in expected <==> exists j: nat :: j < i && name == StreamNameFor(j, n)
      {
        expected := expected + {StreamNameFor(i, n)};
      }
      var todo := streams.Keys;
      while todo != {}
        invariant todo <= streams.Keys
        invariant forall name :: name in streams && name !in todo && IsWal(name) ==> Expected(name, n)
        decreases todo
      {
        var name :| name in todo;
        todo := todo - {name};
        if IsWal(name) && name !in expected {
          assert !Expected(name, n);
          return false;
        }
      }
      ok := !listingFails;
    }

    /** Refuses to touch anything when the guard fails; otherwise provisions the partitions in
        order, stopping at the first that the broker rejects. */
    method EnsureStreams(partitions: int, listingFails: bool, createFails: nat -> bool)
      returns (ok: bool, ghost done: nat)
      modifies this
      ensures var n := if partitions <= 0 then 1 else partitions;
              && done <= n && streams == Provisioned(old(streams), n, done)
              && (ok ==> done == n && GuardPasses(old(streams), n))
              && (done > 0 ==> GuardPasses(old(streams), n))
              && (GuardPasses(old(streams), n) && !listingFails && (forall i: nat :: i < n ==> !createFails(i)) ==> ok)
    {
      var n: nat := if partitions <= 0 then 1 else partitions;
      done := 0;
      ok := CheckStaleStreams(n, listingFails);
      if !ok {
        return;
      }
      for i := 0 to n
        invariant done == i && streams == Provisioned(old(streams), n, i)
      {
        if createFails(i) {
          ok := false;
          return;
        }
        streams := streams[StreamNameFor(i, n) := PartitionFilter(i, n)];
        done := done + 1;
      }
    }
  }

  // ----- Names -----

  lemma NamesApart(i: nat, m: int, j: nat, n: int)
    requires StreamNameFor(i, m) == StreamNameFor(j, n)
    ensures (m <= 1) == (n <= 1)
    ensures m > 1 ==> i == j
  {
    var tail := "_P";
    if m > 1 && n > 1 {
      assert StreamNameFor(i, m)[|STREAM_NAME| + |tail|..] == Padded(i);
      assert StreamNameFor(j, n)[|STREAM_NAME| + |tail|..] == Padded(j);
      ValueOfPadded(i);
      ValueOfPadded(j);
    } else {
      assert m > 1 ==> |StreamNameFor(i, m)| > |STREAM_NAME|;
      assert n > 1 ==> |StreamNameFor(j, n)| > |STREAM_NAME|;
    }
  }

  lemma NamesAreWal(i: nat, n: int)
    ensures IsWal(StreamNameFor(i, n))
  {
    assert StreamNameFor(i, n)[..|STREAM_NAME|] == STREAM_NAME;
  }

  lemma {:induction false} ProvisionedHas(streams: map<string, string>, n: int, k: nat, i: nat)
    requires i < k && (n > 1 || k <= 1)
    ensures var out := Provisioned(streams, n, k);
            StreamNameFor(i, n) in out && out[StreamNameFor(i, n)] == PartitionFilter(i, n)
  {
    if i < k - 1 {
      ProvisionedHas(streams, n, k - 1, i);
      if StreamNameFor(i, n) == StreamNameFor(k - 1, n) { NamesApart(i, n, k - 1, n); }
    }
  }

  lemma {:induction false} ProvisionedOnly(streams: map<string, string>, n: int, k: nat, name: string)
    requires name in Provisioned(streams, n, k)
    ensures name in streams || exists i: nat :: i < k && name == StreamNameFor(i, n)
    ensures (forall i: nat :: i < k ==> name != StreamNameFor(i, n)) ==>
              name in streams && Provisioned(streams, n, k)[name] == streams[name]
  {
    if k > 0 && name != StreamNameFor(k - 1, n) { ProvisionedOnly(streams, n, k - 1, name); }
  }

  // ----- The layout after provisioning -----

  /** Every WAL stream carries the filter its name stands for, in whichever layout made it. */
  ghost predicate ByName(streams: map<string, string>) {
    forall name :: name in streams && IsWal(name) ==> exists i: nat, m: nat :: i < m && Made(streams, name, i, m)
  }

  ghost predicate Made(streams: map<string, string>, name: string, i: nat, m: nat) {
    name in streams && name == StreamNameFor(i, m) && streams[name] == PartitionFilter(i, m)
  }

  /** A stream that was there before carries the filter of the partition its name is in the new layout. */
  lemma OldStreamIsPartition(streams: map<string, string>, n: nat, name: string, j: nat)
    requires ByName(streams) && name in streams && IsWal(name) && j < n && name == StreamNameFor(j, n)
    ensures streams[name] == PartitionFilter(j, n)
  {
    var i: nat, m: nat :| i < m && Made(streams, name, i, m);
    NamesApart(i, m, j, n);
  }

  /** Which partition a WAL stream is, after any number k of partitions was provisioned. */
  lemma WalStreamIsPartition(streams: map<string, string>, n: nat, k: nat, name: string) returns (i: nat)
    requires n >= 1 && k <= n && (k == n || ByName(streams))
    requires GuardPasses(streams, n) && IsWal(name) && name in Provisioned(streams, n, k)
    ensures i < n && name == StreamNameFor(i, n) && Provisioned(streams, n, k)[name] == PartitionFilter(i, n)
  {
    ProvisionedOnly(streams, n, k, name);
    if i' : nat :| i' < k && name == StreamNameFor(i', n) {
      i := i';
      ProvisionedHas(streams, n, k, i);
    } else {
      assert Expected(name, n);
      i :| i < n && name == StreamNameFor(i, n);
      OldStreamIsPartition(streams, n, name, i);
    }
  }

  /** Whenever the guard passes, no subject whatsoever matches two WAL streams: neither after complete
      provisioning nor, with streams that carry the filters of their names, at any point of it. */
  lemma NoOverlap(streams: map<string, string>, n: nat, k: nat, a: string, b: string, subject: string)
    requires n >= 1 && k <= n && (k == n || ByName(streams)) && GuardPasses(streams, n)
    requires var out := Provisioned(streams, n, k);
             IsWal(a) && IsWal(b) && a in out && b in out && Matches(out[a], subject) && Matches(out[b], subject)
    ensures a == b
  {
    var i := WalStreamIsPartition(streams, n, k, a);
    var j := WalStreamIsPartition(streams, n, k, b);
    if n > 1 {
      PartitionFilterAccepts(i, n, subject);
      PartitionFilterAccepts(j, n, subject);
      PartitionTokenInjective(i, j);
    }
  }

  /** ... and every published event lands in exactly one of them: its partition's. */
  lemma PublishedHasOneHome(streams: map<string, string>, n: nat, name: string, ceType: string, ceSubject: string,
                            hash: string -> nat)
    requires n >= 1 && GuardPasses(streams, n) && IsWal(name) && name in Provisioned(streams, n, n)
    ensures Matches(Provisioned(streams, n, n)[name], Subject(ceType, ceSubject, n, hash))
            <==> name == StreamNameFor(Partition(ceSubject, n, hash), n)
    ensures StreamNameFor(Partition(ceSubject, n, hash), n) in Provisioned(streams, n, n)
  {
    var i := WalStreamIsPartition(streams, n, n, name);
    var p := Partition(ceSubject, n, hash);
    RoutesToExactlyOneStream(ceType, ceSubject, n, hash, i);
    ProvisionedHas(streams, n, n, p);
    if name == StreamNameFor(p, n) && n > 1 { NamesApart(i, n, p, n); }
  }

  /** Messages already stored keep their stream: at every point of provisioning it still exists, with
      the same filter. */
  lemma OldStreamsKept(streams: map<string, string>, n: nat, k: nat, name: string)
    requires n >= 1 && k <= n && ByName(streams) && GuardPasses(streams, n) && IsWal(name) && name in streams
    ensures name in Provisioned(streams, n, k) && Provisioned(streams, n, k)[name] == streams[name]
  {
    ProvisionedKeeps(streams, n, k, name);
    var i := WalStreamIsPartition(streams, n, k, name);
    OldStreamIsPartition(streams, n, name, i);
  }

  lemma {:induction false} ProvisionedKeeps(streams: map<string, string>, n: int, k: nat, name: string)
    requires name in streams
    ensures name in Provisioned(streams, n, k)
  {
    if k > 0 { ProvisionedKeeps(streams, n, k - 1, name); }
  }

  lemma ByNameKept(streams: map<string, string>, n: nat, k: nat)
    requires n >= 1 && k <= n && ByName(streams) && GuardPasses(streams, n)
    ensures ByName(Provisioned(streams, n, k))
  {
    var out := Provisioned(streams, n, k);
    forall name | name in out && IsWal(name) ensures exists i: nat, m: nat :: i < m && Made(out, name, i, m) {
      var i := WalStreamIsPartition(streams, n, k, name);
      assert Made(out, name, i, n);
    }
  }

  // ----- Exactly which layouts the guard tells apart -----

  lemma LayoutNames(m: nat, name: string)
    requires m >= 1
    ensures name in Provisioned(map[], m, m) <==> Expected(name, m)
  {
    if name in Provisioned(map[], m, m) { ProvisionedOnly(map[], m, m, name); }
    if Expected(name, m) {
      var i: nat :| i < m && name == StreamNameFor(i, m);
      ProvisionedHas(map[], m, m, i);
    }
  }

  /** Against the complete layout of m partitions the guard for n passes if and only if nothing
      changes or the layout grows from at least two: shrinking, and any change to or from a single
      stream, is refused. */
  lemma GuardExactly(m: nat, n: nat)
    requires m >= 1 && n >= 1
    ensures GuardPasses(Provisioned(map[], m, m), n) <==> m == n || 2 <= m <= n
  {
    var streams := Provisioned(map[], m, m);
    if m == n || 2 <= m <= n {
      forall name | name in streams && IsWal(name) ensures Expected(name, n) {
        LayoutNames(m, name);
        var i: nat :| i < m && name == StreamNameFor(i, m);
        assert name == StreamNameFor(i, n);
      }
    } else {
      var name := StreamNameFor(m - 1, m);
      LayoutNames(m, name);
      NamesAreWal(m - 1, m);
      assert name in streams && IsWal(name);
      if Expected(name, n) {
        var j: nat :| j < n && name == StreamNameFor(j, n);
        NamesApart(m - 1, m, j, n);
      }
    }
  }
}
