/** What the coordinate state machine means: a greedy grouping of the location signals alone. */
module Grouping {
  import opened Options
  import opened Signals
  import opened Coordinates

  ghost predicate InTimeOrder(xs: seq<Signal>) {
    forall i, j :: 0 <= i < j < |xs| ==> xs[i].ts <= xs[j].ts
  }

  ghost predicate AllLocs(xs: seq<Signal>) {
    forall i :: 0 <= i < |xs| ==> IsLoc(xs[i])
  }

  ghost predicate NotBefore(xs: seq<Signal>, t: int) {
    forall i :: 0 <= i < |xs| ==> t <= xs[i].ts
  }

  lemma {:induction false} LocsNotBefore(xs: seq<Signal>, t: int)
    requires NotBefore(xs, t)
    ensures NotBefore(Locs(xs), t)
  {
    if xs != [] { LocsNotBefore(xs[1..], t); }
  }

  lemma {:induction false} LocsAreLocs(xs: seq<Signal>)
    ensures AllLocs(Locs(xs))
    ensures InTimeOrder(xs) ==> InTimeOrder(Locs(xs))
  {
    if xs != [] {
      LocsAreLocs(xs[1..]);
      if InTimeOrder(xs) { LocsNotBefore(xs[1..], xs[0].ts); }
    }
  }

  // ----- Signals that are not location parts do not matter -----

  /** Closing a triple early changes nothing if everything still to come is past its window. */
  lemma ClosedEarly(s: Store, ls: seq<Signal>)
    requires AllLocs(ls) && s.open.time != 0
    requires forall i :: 0 <= i < |ls| ==> Expired(s.open, ls[i].ts)
    ensures Close(Run(Close(s), ls)) == Close(Run(s, ls))
  {
    if ls != [] { assert Feed(Close(s), ls[0]) == Feed(s, ls[0]); }
  }

  /** Removing every other signal from an input in time order changes neither the created
      locations nor the errors, even though any signal can close an expired triple. */
  lemma {:induction false} OnlyLocationsMatter(s: Store, xs: seq<Signal>)
    requires InTimeOrder(xs)
    ensures Close(Run(s, xs)) == Close(Run(s, Locs(xs)))
    decreases |xs|
  {
    if xs != [] {
      var x, rest := xs[0], xs[1..];
      OnlyLocationsMatter(Feed(s, x), rest);
      if IsLoc(x) {
        assert Locs(xs)[1..] == Locs(rest);
      } else {
        assert Locs(xs) == Locs(rest);
        if Expired(s.open, x.ts) {
          LocsAreLocs(rest);
          LocsNotBefore(rest, x.ts);
          ClosedEarly(s, Locs(rest));
        }
      }
    }
  }

  // ----- Greedy groups -----

  /** The time a group reports: its first non-zero timestamp. */
  function Anchor(g: seq<Signal>): int {
    if g == [] then 0
    else var a := Anchor(g[..|g| - 1]); if a != 0 then a else g[|g| - 1].ts
  }

  /** x may join g: within the window of its anchor, and no member plays the same part. */
  ghost predicate Fits(g: seq<Signal>, x: Signal) {
    && (Anchor(g) == 0 || x.ts - Anchor(g) < WINDOW)
    && (forall k :: 0 <= k < |g| ==> KindOf(g[k].name) != KindOf(x.name))
  }

  /** The end of the longest group that starts with the first k signals. */
  ghost function Extend(ls: seq<Signal>, k: nat): (e: nat)
    requires k <= |ls|
    ensures k <= e <= |ls|
    decreases |ls| - k
  {
    if k < |ls| && Fits(ls[..k], ls[k]) then Extend(ls, k + 1) else k
  }

  /** Cut the location signals, first come first served, into the longest groups that fit. */
  ghost function Groups(ls: seq<Signal>): seq<seq<Signal>>
    decreases |ls|
  {
    if ls == [] then [] else var e := Extend(ls, 1); [ls[..e]] + Groups(ls[e..])
  }

  function TripleOf(g: seq<Signal>): Triple {
    if g == [] then NO_TRIPLE else Put(TripleOf(g[..|g| - 1]), g[|g| - 1])
  }

  function AllCreated(gs: seq<seq<Signal>>): seq<Signal> {
    if gs == [] then [] else CreatedBy(TripleOf(gs[0])) + AllCreated(gs[1..])
  }

  function AllErrors(gs: seq<seq<Signal>>): seq<Error> {
    if gs == [] then [] else ErrorsBy(TripleOf(gs[0])) + AllErrors(gs[1..])
  }

  ghost predicate Has(g: seq<Signal>, kind: Kind) {
    exists k :: 0 <= k < |g| && KindOf(g[k].name) == kind
  }

  lemma HasMore(h: seq<Signal>, x: Signal, kind: Kind)
    ensures Has(h + [x], kind) <==> Has(h, kind) || KindOf(x.name) == kind
  {
    var g := h + [x];
    assert g[|h|] == x;
    if k :| 0 <= k < |h| && KindOf(h[k].name) == kind { assert KindOf(g[k].name) == kind; }
  }

  lemma {:induction false} TripleMirrorsGroup(g: seq<Signal>, kind: Kind)
    requires AllLocs(g)
    ensures TripleOf(g).time == Anchor(g)
    ensures Slot(TripleOf(g), kind).Some? <==> Has(g, kind)
  {
    if g != [] {
      var h, x := g[..|g| - 1], g[|g| - 1];
      TripleMirrorsGroup(h, kind);
      HasMore(h, x, kind);
      assert g == h + [x];
    }
  }

  lemma FitsIsRoom(g: seq<Signal>, x: Signal)
    requires AllLocs(g) && IsLoc(x)
    ensures Fits(g, x) <==> !Expired(TripleOf(g), x.ts) && Slot(TripleOf(g), KindOf(x.name)).None?
  {
    TripleMirrorsGroup(g, KindOf(x.name));
  }

  /** While signals fit, the machine just collects them; the first that does not fit closes it. */
  lemma {:induction false} RunOneGroup(s: Store, ls: seq<Signal>, k: nat)
    requires AllLocs(ls) && k <= |ls| && s.open == TripleOf(ls[..k])
    ensures var e := Extend(ls, k);
            Close(Run(s, ls[k..])) == Close(Run(Close(s.(open := TripleOf(ls[..e]))), ls[e..]))
    decreases |ls| - k
  {
    if k < |ls| {
      var x, g := ls[k], ls[..k];
      assert ls[k..][1..] == ls[k + 1..];
      FitsIsRoom(g, x);
      if Fits(g, x) {
        assert ls[..k + 1][..k] == g;
        assert Feed(s, x) == s.(open := TripleOf(ls[..k + 1]));
        RunOneGroup(Feed(s, x), ls, k + 1);
      } else {
        assert Feed(s, x) == Feed(Close(s), x);
        assert s == s.(open := TripleOf(ls[..k]));
      }
    } else {
      assert ls[k..] == [];
      assert Close(Close(s)) == Close(s);
    }
  }

  lemma RunFirstGroup(s: Store, ls: seq<Signal>, e: nat)
    requires AllLocs(ls) && s.open == NO_TRIPLE && ls != [] && e == Extend(ls, 1)
    ensures Close(Run(s, ls)) == Close(Run(Close(s.(open := TripleOf(ls[..e]))), ls[e..]))
  {
    assert ls[0..] == ls && ls[..0] == [] && Extend(ls, 0) == e;
    RunOneGroup(s, ls, 0);
  }

  /** Closing the given groups one after the other. */
  function Emit(s: Store, gs: seq<seq<Signal>>): Store
    decreases |gs|
  {
    if gs == [] then s else Emit(Close(s.(open := TripleOf(gs[0]))), gs[1..])
  }

  lemma Regroup<T>(a: seq<T>, b: seq<T>, c: seq<T>)
    ensures a + b + c == a + (b + c)
  {
  }

  lemma {:induction false} EmitCollects(s: Store, gs: seq<seq<Signal>>, r: Store)
    requires s.open == NO_TRIPLE && r == Emit(s, gs)
    ensures r == Store(NO_TRIPLE, s.created + AllCreated(gs), s.errs + AllErrors(gs))
    decreases |gs|
  {
    if gs != [] {
      var g, rest := TripleOf(gs[0]), gs[1..];
      EmitCollects(Close(s.(open := g)), rest, r);
      Regroup(s.created, CreatedBy(g), AllCreated(rest));
      Regroup(s.errs, ErrorsBy(g), AllErrors(rest));
    }
  }

  lemma {:induction false} RunIsEmit(s: Store, ls: seq<Signal>, gs: seq<seq<Signal>>, r: Store)
    requires AllLocs(ls) && s.open == NO_TRIPLE && gs == Groups(ls) && r == Close(Run(s, ls))
    ensures r == Emit(s, gs)
    decreases |ls|
  {
    if ls == [] {
      assert Close(s) == s;
    } else {
      var e := Extend(ls, 1);
      RunFirstGroup(s, ls, e);
      RunIsEmit(Close(s.(open := TripleOf(ls[..e]))), ls[e..], gs[1..], r);
    }
  }

  /** The refinement: on any sorted input the machine creates exactly what the greedy groups of
      its location signals create, and reports exactly their errors. */
  lemma MachineIsGreedyGrouping(xs: seq<Signal>)
    requires Sorted(xs)
    ensures var gs := Groups(Locs(xs));
            Close(Run(INITIAL, xs)) == Store(NO_TRIPLE, AllCreated(gs), AllErrors(gs))
  {
    var ls, r := Locs(xs), Close(Run(INITIAL, xs));
    OnlyLocationsMatter(INITIAL, xs);
    LocsAreLocs(xs);
    RunIsEmit(INITIAL, ls, Groups(ls), r);
    EmitCollects(INITIAL, Groups(ls), r);
  }

  // ----- Conservation -----

  function Flat(gs: seq<seq<Signal>>): seq<Signal> {
    if gs == [] then [] else gs[0] + Flat(gs[1..])
  }

  function Count(xs: seq<Signal>, kind: Kind): nat {
    if xs == [] then 0 else Count(xs[..|xs| - 1], kind) + if KindOf(xs[|xs| - 1].name) == kind then 1 else 0
  }

  /** Every part fits the group before it. */
  ghost predicate IsGroup(g: seq<Signal>) {
    g != [] && AllLocs(g) && forall k :: 0 < k < |g| ==> Fits(g[..k], g[k])
  }

  lemma {:induction false} ExtendIsGroup(ls: seq<Signal>, k: nat)
    requires AllLocs(ls) && 0 < k <= |ls| && IsGroup(ls[..k])
    ensures IsGroup(ls[..Extend(ls, k)])
    decreases |ls| - k
  {
    if k < |ls| && Fits(ls[..k], ls[k]) {
      var g := ls[..k + 1];
      forall j | 0 < j < |g| ensures Fits(g[..j], g[j]) {
        assert g[..j] == ls[..j];
        if j < k { assert ls[..k][..j] == ls[..j] && Fits(ls[..k][..j], ls[..k][j]); }
      }
      ExtendIsGroup(ls, k + 1);
    }
  }

  /** The groups are non-empty, each fits, and together they are the input, in order. */
  lemma {:induction false} GroupsPartition(ls: seq<Signal>, gs: seq<seq<Signal>>)
    requires AllLocs(ls) && gs == Groups(ls)
    ensures Flat(gs) == ls
    ensures forall i :: 0 <= i < |gs| ==> IsGroup(gs[i])
    decreases |ls|
  {
    if ls != [] {
      var e := Extend(ls, 1);
      ExtendIsGroup(ls, 1);
      GroupsPartition(ls[e..], gs[1..]);
      assert ls == ls[..e] + ls[e..];
    }
  }

  lemma {:induction false} CountIsOccupied(g: seq<Signal>, kind: Kind)
    requires IsGroup(g) && !kind.Other?
    ensures Count(g, kind) == if Slot(TripleOf(g), kind).Some? then 1 else 0
  {
    var h, x := g[..|g| - 1], g[|g| - 1];
    if h == [] {
      assert TripleOf(h) == NO_TRIPLE;
    } else {
      forall k | 0 < k < |h| ensures Fits(h[..k], h[k]) { assert h[..k] == g[..k]; }
      CountIsOccupied(h, kind);
      TripleMirrorsGroup(h, kind);
      assert Fits(g[..|h|], g[|h|]) && g[..|h|] == h;
    }
  }

  lemma {:induction false} CountJoins(a: seq<Signal>, b: seq<Signal>, kind: Kind)
    ensures Count(a + b, kind) == Count(a, kind) + Count(b, kind)
  {
    if b == [] {
      assert a + b == a;
    } else {
      assert (a + b)[..|a + b| - 1] == a + b[..|b| - 1];
      CountJoins(a, b[..|b| - 1], kind);
    }
  }

  function Invalid(es: seq<Error>): nat {
    if es == [] then 0 else (if es[0].InvalidCoordinate? then 1 else 0) + Invalid(es[1..])
  }

  lemma {:induction false} PartsConserved(gs: seq<seq<Signal>>)
    requires forall i :: 0 <= i < |gs| ==> IsGroup(gs[i])
    ensures var invalid := Invalid(AllErrors(gs));
            && invalid <= |AllErrors(gs)|
            && Count(Flat(gs), Lat) + Count(Flat(gs), Lon)
               == 2 * |AllCreated(gs)| + 2 * invalid + (|AllErrors(gs)| - invalid)
  {
    if gs != [] {
      var g, rest := gs[0], gs[1..];
      PartsConserved(rest);
      CountIsOccupied(g, Lat);
      CountIsOccupied(g, Lon);
      CountJoins(g, Flat(rest), Lat);
      CountJoins(g, Flat(rest), Lon);
      var es := ErrorsBy(TripleOf(g));
      if es == [] {
        assert AllErrors(gs) == AllErrors(rest);
      } else {
        assert AllErrors(gs)[1..] == AllErrors(rest);
      }
    }
  }

  /** Latitudes and longitudes are conserved: each ends in a created location, an invalid pair or
      an unpaired error, and nowhere twice. */
  lemma CoordinatesConserved(xs: seq<Signal>)
    requires Sorted(xs)
    ensures var r, ls := Close(Run(INITIAL, xs)), Locs(xs);
            var invalid := Invalid(r.errs);
            var unpaired := |r.errs| - invalid;
            unpaired >= 0 && Count(ls, Lat) + Count(ls, Lon) == 2 * |r.created| + 2 * invalid + unpaired
  {
    MachineIsGreedyGrouping(xs);
    LocsAreLocs(xs);
    GroupsPartition(Locs(xs), Groups(Locs(xs)));
    PartsConserved(Groups(Locs(xs)));
  }

  /** Of the input the machine keeps every signal that is neither a location part nor named like the
      marker, as often as it occurs, and no other ... */
  lemma {:induction false} OthersExactly(xs: seq<Signal>, x: Signal)
    ensures multiset(Others(xs))[x] == if IsLoc(x) || x.name == PRUNE then 0 else multiset(xs)[x]
  {
    if xs != [] {
      var h, last := xs[..|xs| - 1], xs[|xs| - 1];
      OthersExactly(h, x);
      assert xs == h + [last];
      if IsLoc(last) || last.name == PRUNE {
        assert Others(xs) == Others(h);
      } else {
        assert Others(xs) == Others(h) + [last];
      }
    }
  }

  /** ... in the order it had. */
  lemma {:induction false} OthersSorted(xs: seq<Signal>)
    requires Sorted(xs)
    ensures Sorted(Others(xs))
  {
    if xs != [] {
      var h, last := xs[..|xs| - 1], xs[|xs| - 1];
      OthersSorted(h);
      forall i | 0 <= i < |Others(h)| ensures KeyLe(Others(h)[i], last) {
        OtherComesFrom(h, i);
      }
    }
  }

  lemma {:induction false} OtherComesFrom(xs: seq<Signal>, i: nat)
    requires i < |Others(xs)|
    ensures Others(xs)[i] in xs
  {
    var h := xs[..|xs| - 1];
    if i < |Others(h)| { OtherComesFrom(h, i); }
  }

  // ----- Where a created location comes from -----

  lemma {:induction false} SlotIsMember(g: seq<Signal>, kind: Kind)
    requires AllLocs(g)
    ensures var o := Slot(TripleOf(g), kind); o.Some? ==> o.value in g && KindOf(o.value.name) == kind
  {
    if g != [] {
      SlotIsMember(g[..|g| - 1], kind);
    }
  }

  lemma {:induction false} AnchorOf(g: seq<Signal>, k: nat)
    requires k <= |g|
    ensures Anchor(g[..k]) != 0 ==> Anchor(g) == Anchor(g[..k])
    ensures Anchor(g[..k]) == 0 ==> forall i :: 0 <= i < k ==> g[i].ts == 0
    ensures Anchor(g[..k]) == 0 && k < |g| && g[k].ts != 0 ==> Anchor(g) == g[k].ts
  {
    if k == |g| {
      assert g[..k] == g;
      if k > 0 {
        AnchorOf(g[..k - 1], k - 1);
        assert g[..k - 1][..k - 1] == g[..k - 1];
      }
    } else {
      var h := g[..|g| - 1];
      AnchorOf(h, k);
      assert h[..k] == g[..k];
      if k == |h| { assert h[..k] == h; }
    }
  }

  /** Distance of member k from the group's reported time. */
  lemma MemberInWindow(g: seq<Signal>, k: nat)
    requires IsGroup(g) && InTimeOrder(g) && k < |g|
    ensures if g[k].ts == 0 && g[0].ts == 0 then 0 <= Anchor(g) else 0 <= g[k].ts - Anchor(g) < WINDOW
  {
    if g[k].ts == 0 && g[0].ts == 0 {
      AnchorNotNegative(g);
    } else {
      var a := Anchor(g[..k]);
      AnchorOf(g, k);
      if a != 0 {
        AnchorInOrder(g, k);
        assert Fits(g[..k], g[k]);
      }
    }
  }

  lemma {:induction false} AnchorInOrder(g: seq<Signal>, k: nat)
    requires InTimeOrder(g) && k < |g| && Anchor(g[..k]) != 0
    ensures Anchor(g[..k]) <= g[k].ts
  {
    var h := g[..k];
    if Anchor(h[..k - 1]) != 0 {
      assert h[..k - 1] == g[..k - 1];
      AnchorInOrder(g, k - 1);
    }
  }

  lemma {:induction false} AnchorNotNegative(g: seq<Signal>)
    requires InTimeOrder(g) && g != [] && g[0].ts == 0
    ensures Anchor(g) >= 0
  {
    if |g| > 1 { AnchorNotNegative(g[..|g| - 1]); } else { assert g[..0] == []; }
  }

  /** Every member lies less than 500 ms from time `at`. */
  ghost predicate InWindow(g: seq<Signal>, at: int) {
    forall k :: 0 <= k < |g| ==> -WINDOW < g[k].ts - at < WINDOW
  }

  /** The group starts with a zero timestamp, which switches the gap check off, and its first real
      timestamp is 500 ms or more after zero. */
  ghost predicate Stretched(g: seq<Signal>) {
    g != [] && g[0].ts == 0 && Anchor(g) >= WINDOW
  }

  lemma GroupWindow(g: seq<Signal>)
    requires IsGroup(g) && InTimeOrder(g)
    ensures InWindow(g, Anchor(g)) <==> !Stretched(g)
  {
    forall k | 0 <= k < |g| && !Stretched(g) ensures -WINDOW < g[k].ts - Anchor(g) < WINDOW {
      MemberInWindow(g, k);
    }
    assert Stretched(g) ==> g[0].ts - Anchor(g) <= -WINDOW;
  }

  /** A zero timestamp really does join signals any time apart: the machine makes one location of a
      latitude at zero and a longitude 500 ms or more later. */
  lemma ZeroTimestampSkipsGapCheck(lat: Signal, lon: Signal)
    requires KindOf(lat.name) == Lat && KindOf(lon.name) == Lon && ValidLatLon(lat.number, lon.number)
    requires lat.ts == 0 && lon.ts >= WINDOW
    ensures Sorted([lat, lon])
    ensures var created := Close(Run(INITIAL, [lat, lon])).created;
            && |created| == 1 && created[0].ts == lon.ts
            && created[0].location == Location(lat.number, lon.number, Fin(0.0))
  {
    var s := Feed(INITIAL, lat);
    assert s == INITIAL.(open := Triple(Some(lat), None, None, 0));
    assert Feed(s, lon) == s.(open := Triple(Some(lat), Some(lon), None, lon.ts));
    assert [lat, lon][1..] == [lon] && [lon][1..] == [];
    assert Run(s, [lon]) == Feed(s, lon);
  }

  ghost predicate Pairs(g: seq<Signal>, i: int, j: int, c: Signal) {
    && 0 <= i < |g| && 0 <= j < |g| && i != j
    && KindOf(g[i].name) == Lat && KindOf(g[j].name) == Lon
    && c.location.latitude == g[i].number && c.location.longitude == g[j].number
    && c.header == g[i].header && c.eventId == g[i].eventId
  }

  /** The precision is that of the group's HDOP signal, or zero if it has none. */
  ghost predicate Precise(g: seq<Signal>, c: Signal) {
    if Has(g, Hdop) then exists k :: 0 <= k < |g| && KindOf(g[k].name) == Hdop && g[k].number == c.location.hdop
    else c.location.hdop == Fin(0.0)
  }

  lemma CreatedIsPrecise(g: seq<Signal>)
    requires AllLocs(g) && CreatedBy(TripleOf(g)) != []
    ensures Precise(g, CreatedBy(TripleOf(g))[0])
  {
    var t := TripleOf(g);
    TripleMirrorsGroup(g, Hdop);
    SlotIsMember(g, Hdop);
    if Has(g, Hdop) { var k :| 0 <= k < |g| && g[k] == t.hdop.value; }
  }

  lemma CreatedFromPair(g: seq<Signal>)
    requires AllLocs(g) && CreatedBy(TripleOf(g)) != []
    ensures exists i, j :: Pairs(g, i, j, CreatedBy(TripleOf(g))[0])
  {
    var t := TripleOf(g);
    SlotIsMember(g, Lat);
    SlotIsMember(g, Lon);
    var i :| 0 <= i < |g| && g[i] == t.lat.value;
    var j :| 0 <= j < |g| && g[j] == t.lon.value;
    assert Pairs(g, i, j, CreatedBy(t)[0]);
  }

  /** The i-th created location comes from one group, and i groups' worth were created before it,
      so different locations come from different groups. */
  lemma {:induction false} CreatedOrigin(gs: seq<seq<Signal>>, i: nat) returns (m: nat)
    requires i < |AllCreated(gs)|
    ensures m < |gs| && CreatedBy(TripleOf(gs[m])) == [AllCreated(gs)[i]] && |AllCreated(gs[..m])| == i
  {
    var n := |CreatedBy(TripleOf(gs[0]))|;
    if i < n {
      m := 0;
    } else {
      var k := CreatedOrigin(gs[1..], i - n);
      m := k + 1;
      assert gs[..m][1..] == gs[1..][..k];
    }
  }

  lemma {:induction false} GroupInOrder(gs: seq<seq<Signal>>, m: nat)
    requires InTimeOrder(Flat(gs)) && m < |gs|
    ensures InTimeOrder(gs[m])
  {
    var f := Flat(gs);
    assert forall i :: 0 <= i < |gs[0]| ==> f[i] == gs[0][i];
    if m > 0 {
      var rest := Flat(gs[1..]);
      assert forall i :: 0 <= i < |rest| ==> f[|gs[0]| + i] == rest[i];
      GroupInOrder(gs[1..], m - 1);
    }
  }

  /** Every location created from a sorted input is valid and built from one latitude, one
      longitude and the HDOP of its own group; unless the group starts with a zero timestamp they
      all lie less than 500 ms after the location's timestamp. */
  lemma CreatedIsSound(xs: seq<Signal>, i: nat) returns (m: nat)
    requires Sorted(xs) && i < |Close(Run(INITIAL, xs)).created|
    ensures var gs, c := Groups(Locs(xs)), Close(Run(INITIAL, xs)).created[i];
            && m < |gs| && |AllCreated(gs[..m])| == i
            && ValidLatLon(c.location.latitude, c.location.longitude)
            && c.name == COORDINATES && c.ts == Anchor(gs[m])
            && (exists a, b :: Pairs(gs[m], a, b, c)) && Precise(gs[m], c)
            && (gs[m] != [] && gs[m][0].ts != 0 ==> forall k :: 0 <= k < |gs[m]| ==> 0 <= gs[m][k].ts - c.ts < WINDOW)
  {
    var ls := Locs(xs);
    var gs := Groups(ls);
    MachineIsGreedyGrouping(xs);
    m := CreatedOrigin(gs, i);
    LocsAreLocs(xs);
    GroupsPartition(ls, gs);
    GroupInOrder(gs, m);
    CreatedFromPair(gs[m]);
    CreatedIsPrecise(gs[m]);
    TripleMirrorsGroup(gs[m], Lat);
    if gs[m][0].ts != 0 {
      forall k | 0 <= k < |gs[m]| ensures 0 <= gs[m][k].ts - Anchor(gs[m]) < WINDOW { MemberInWindow(gs[m], k); }
    }
  }

  /** Group m is the one the i-th created location comes from. */
  ghost predicate MadeFrom(gs: seq<seq<Signal>>, m: int, created: seq<Signal>, i: int) {
    0 <= m < |gs| && 0 <= i < |created| && |AllCreated(gs[..m])| == i && CreatedBy(TripleOf(gs[m])) == [created[i]]
  }

  lemma {:induction false} GroupCreates(gs: seq<seq<Signal>>, m: nat, created: seq<Signal>)
    requires m < |gs| && CreatedBy(TripleOf(gs[m])) != [] && created == AllCreated(gs)
    ensures MadeFrom(gs, m, created, |AllCreated(gs[..m])|)
  {
    if m > 0 {
      GroupCreates(gs[1..], m - 1, AllCreated(gs[1..]));
      assert gs[..m][1..] == gs[1..][..m - 1];
    }
  }

  /** The location takes the time of its group. */
  lemma CreatedTime(gs: seq<seq<Signal>>, m: int, created: seq<Signal>, i: int)
    requires MadeFrom(gs, m, created, i) && AllLocs(gs[m])
    ensures created[i].ts == Anchor(gs[m])
  {
    TripleMirrorsGroup(gs[m], Lat);
  }

  lemma GroupsInOrder(xs: seq<Signal>, gs: seq<seq<Signal>>, m: nat)
    requires Sorted(xs) && gs == Groups(Locs(xs)) && m < |gs|
    ensures IsGroup(gs[m]) && InTimeOrder(gs[m]) && Flat(gs) == Locs(xs)
  {
    LocsAreLocs(xs);
    GroupsPartition(Locs(xs), gs);
    GroupInOrder(gs, m);
  }

  ghost predicate AllInWindow(gs: seq<seq<Signal>>, created: seq<Signal>) {
    forall m, i :: MadeFrom(gs, m, created, i) ==> InWindow(gs[m], created[i].ts)
  }

  ghost predicate NoneStretched(gs: seq<seq<Signal>>) {
    forall m :: 0 <= m < |gs| && CreatedBy(TripleOf(gs[m])) != [] ==> !Stretched(gs[m])
  }

  /** Exactly when the parts of every created location lie within 500 ms of its timestamp, for every
      sorted input: no group that makes a location is stretched by a zero timestamp. */
  lemma WindowExactly(xs: seq<Signal>)
    requires Sorted(xs)
    ensures var gs, created := Groups(Locs(xs)), Close(Run(INITIAL, xs)).created;
            AllInWindow(gs, created) <==> NoneStretched(gs)
  {
    var gs, created := Groups(Locs(xs)), Close(Run(INITIAL, xs)).created;
    MachineIsGreedyGrouping(xs);
    forall m, i | MadeFrom(gs, m, created, i) ensures InWindow(gs[m], created[i].ts) <==> !Stretched(gs[m]) {
      GroupsInOrder(xs, gs, m);
      GroupWindow(gs[m]);
      CreatedTime(gs, m, created, i);
    }
    forall m | 0 <= m < |gs| && CreatedBy(TripleOf(gs[m])) != [] ensures exists i :: MadeFrom(gs, m, created, i) {
      GroupCreates(gs, m, created);
    }
  }

  lemma {:induction false} LocsComeFrom(xs: seq<Signal>, x: Signal)
    ensures x in Locs(xs) <==> x in xs && IsLoc(x)
  {
    if xs != [] {
      LocsComeFrom(xs[1..], x);
      assert xs == [xs[0]] + xs[1..];
    }
  }

  lemma {:induction false} MemberOfFlat(gs: seq<seq<Signal>>, m: nat, x: Signal)
    requires m < |gs| && x in gs[m]
    ensures x in Flat(gs)
  {
    if m > 0 { MemberOfFlat(gs[1..], m - 1, x); }
  }

  /** In particular the window always holds if no location signal carries the zero time. */
  lemma WindowWithoutZeroTimes(xs: seq<Signal>)
    requires Sorted(xs) && forall x :: x in xs && IsLoc(x) ==> x.ts != 0
    ensures AllInWindow(Groups(Locs(xs)), Close(Run(INITIAL, xs)).created)
  {
    var gs := Groups(Locs(xs));
    WindowExactly(xs);
    forall m | 0 <= m < |gs| ensures !Stretched(gs[m]) {
      GroupsInOrder(xs, gs, m);
      MemberOfFlat(gs, m, gs[m][0]);
      LocsComeFrom(xs, gs[m][0]);
    }
  }
}
