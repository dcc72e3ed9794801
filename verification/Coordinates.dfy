/** Merging latitude, longitude and HDOP signals into location signals. */
module Coordinates {
  import opened Options
  import opened Signals

  const LATITUDE := "currentLocationLatitude"
  const LONGITUDE := "currentLocationLongitude"
  const HDOP := "dimoAftermarketHDOP"
  const COORDINATES := "currentLocationCoordinates"

  /** 500 ms, in nanoseconds. */
  const WINDOW: int := 500_000_000

  datatype Kind = Lat | Lon | Hdop | Other

  /** Which part of a location triple a signal of this name is, if any. */
  function KindOf(name: string): Kind {
    if name == LATITUDE then Lat
    else if name == LONGITUDE then Lon
    else if name == HDOP then Hdop
    else Other
  }

  predicate IsLoc(x: Signal) {
    !KindOf(x.name).Other?
  }

  predicate ValidLatLon(lat: Num, lon: Num) {
    && lat.Fin? && lon.Fin?
    && !(lat.value == 0.0 && lon.value == 0.0)
    && -90.0 <= lat.value <= 90.0 && -180.0 <= lon.value <= 180.0
  }

  datatype Error =
    | InvalidCoordinate(lat: Num, lon: Num, at: int)
    | UnpairedLatitude(at: int)
    | UnpairedLongitude(at: int)

  /** The location triple under construction; `time` is 0 while no part has set it. */
  datatype Triple = Triple(lat: Option<Signal>, lon: Option<Signal>, hdop: Option<Signal>, time: int)

  const NO_TRIPLE := Triple(None, None, None, 0)

  function Slot(t: Triple, k: Kind): Option<Signal> {
    match k
    case Lat => t.lat
    case Lon => t.lon
    case Hdop => t.hdop
    case Other => None
  }

  function Put(t: Triple, x: Signal): Triple {
    var time := if t.time == 0 then x.ts else t.time;
    match KindOf(x.name)
    case Lat => Triple(Some(x), t.lon, t.hdop, time)
    case Lon => Triple(t.lat, Some(x), t.hdop, time)
    case Hdop => Triple(t.lat, t.lon, Some(x), time)
    case Other => t
  }

  function CreatedBy(t: Triple): seq<Signal> {
    if t.lat.Some? && t.lon.Some? && ValidLatLon(t.lat.value.number, t.lon.value.number) then
      [Signal(t.lat.value.header, t.lat.value.eventId, t.time, COORDINATES, Fin(0.0),
              Location(t.lat.value.number, t.lon.value.number, if t.hdop.Some? then t.hdop.value.number else Fin(0.0)))]
    else []
  }

  function ErrorsBy(t: Triple): seq<Error> {
    if t.lat.Some? && t.lon.Some? then
      if ValidLatLon(t.lat.value.number, t.lon.value.number) then []
      else [InvalidCoordinate(t.lat.value.number, t.lon.value.number, t.time)]
    else if t.lat.Some? then [UnpairedLatitude(t.time)]
    else if t.lon.Some? then [UnpairedLongitude(t.time)]
    else []
  }

  // ----- The state machine, on values -----

  datatype Store = Store(open: Triple, created: seq<Signal>, errs: seq<Error>)

  const INITIAL := Store(NO_TRIPLE, [], [])

  function Close(s: Store): Store {
    Store(NO_TRIPLE, s.created + CreatedBy(s.open), s.errs + ErrorsBy(s.open))
  }

  predicate Expired(t: Triple, ts: int) {
    t.time != 0 && ts - t.time >= WINDOW
  }

  function Feed(s: Store, x: Signal): Store {
    var s1 := if Expired(s.open, x.ts) then Close(s) else s;
    if !IsLoc(x) then s1 else Place(s1, x)
  }

  /** Adds a location part, closing the open triple first if its slot is taken. */
  function Place(s: Store, x: Signal): Store {
    var s' := if Slot(s.open, KindOf(x.name)).Some? then Close(s) else s;
    s'.(open := Put(s'.open, x))
  }

  function Run(s: Store, xs: seq<Signal>): Store
    decreases |xs|
  {
    if xs == [] then s else Run(Feed(s, xs[0]), xs[1..])
  }

  function Locs(xs: seq<Signal>): seq<Signal> {
    if xs == [] then [] else (if IsLoc(xs[0]) then [xs[0]] else []) + Locs(xs[1..])
  }

  /** What downstream keeps of the input: neither a location part nor named like the marker. */
  function Others(xs: seq<Signal>): seq<Signal> {
    if xs == [] then []
    else Others(xs[..|xs| - 1]) + var x := xs[|xs| - 1]; if IsLoc(x) || x.name == PRUNE then [] else [x]
  }

  // ----- The in-place implementation -----

  /** A consumed location part carries the marker instead of its name. */
  function Marked(x: Signal): Signal {
    if IsLoc(x) then x.(name := PRUNE) else x
  }

  class CoordinateStore {
    var lastLat: int
    var lastLon: int
    var lastHDOP: int
    var lastTime: int
    const signals: array<Signal>
    var created: seq<Signal>
    var errs: seq<Error>

    constructor (signals: array<Signal>)
      ensures this.signals == signals
      ensures lastLat == -1 && lastLon == -1 && lastHDOP == -1 && lastTime == 0 && created == [] && errs == []
    {
      this.signals := signals;
      lastLat, lastLon, lastHDOP, lastTime := -1, -1, -1, 0;
      created, errs := [], [];
    }

    static ghost predicate Points(k: int, kind: Kind, base: seq<Signal>, i: nat) {
      k == -1 || (0 <= k < i && k < |base| && KindOf(base[k].name) == kind)
    }

    static ghost function Part(k: int, base: seq<Signal>): Option<Signal> {
      if 0 <= k < |base| then Some(base[k]) else None
    }

    /** `base` is the sorted input: i entries have been read, and exactly the location parts among
        them that are no longer in the open triple carry the marker. */
    ghost predicate Tracks(base: seq<Signal>, i: nat)
      reads this, signals
    {
      && signals.Length == |base| && i <= |base|
      && Points(lastLat, Lat, base, i) && Points(lastLon, Lon, base, i) && Points(lastHDOP, Hdop, base, i)
      && Holds(base, i, lastLat, lastLon, lastHDOP)
    }

    /** Of the first i entries exactly the location parts other than a, b and c carry the marker. */
    ghost predicate Holds(base: seq<Signal>, i: nat, a: int, b: int, c: int)
      reads this, signals
    {
      && signals.Length == |base| && i <= |base|
      && (forall j :: 0 <= j < |base| ==> signals[j] == Entry(base[j], j < i && j != a && j != b && j != c))
    }

    static ghost function Entry(x: Signal, consumed: bool): Signal {
      if consumed then Marked(x) else x
    }

    ghost function View(base: seq<Signal>): Store
      reads this
    {
      Store(Triple(Part(lastLat, base), Part(lastLon, base), Part(lastHDOP, base), lastTime), created, errs)
    }

    /** Renames a part of the open triple to the marker. */
    method Consume(k: int, ghost base: seq<Signal>, ghost i: nat, ghost b: int, ghost c: int)
      requires Holds(base, i, k, b, c) && 0 <= k < i && k != b && k != c && IsLoc(base[k])
      modifies signals
      ensures Holds(base, i, -1, b, c)
    {
      signals[k] := signals[k].(name := PRUNE);
    }

    /** The pair, or the one coordinate there is: consumed, with an error unless a valid pair. */
    method ConsumePair(ghost base: seq<Signal>, ghost i: nat) returns (create: bool, lat: Num, lon: Num)
      requires Tracks(base, i)
      modifies this`errs, signals
      ensures Holds(base, i, -1, -1, lastHDOP)
      ensures var t := View(base).open;
              && create == (t.lat.Some? && t.lon.Some? && ValidLatLon(t.lat.value.number, t.lon.value.number))
              && (create ==> lat == t.lat.value.number && lon == t.lon.value.number)
              && errs == old(errs) + ErrorsBy(t)
    {
      create, lat, lon := false, Fin(0.0), Fin(0.0);
      if lastLat != -1 && lastLon != -1 {
        lat, lon := signals[lastLat].number, signals[lastLon].number;
        if !ValidLatLon(lat, lon) {
          errs := errs + [InvalidCoordinate(lat, lon, lastTime)];
        } else {
          create := true;
        }
        Consume(lastLat, base, i, lastLon, lastHDOP);
        Consume(lastLon, base, i, -1, lastHDOP);
      } else if lastLat != -1 {
        errs := errs + [UnpairedLatitude(lastTime)];
        Consume(lastLat, base, i, -1, lastHDOP);
      } else if lastLon != -1 {
        errs := errs + [UnpairedLongitude(lastTime)];
        Consume(lastLon, base, i, -1, lastHDOP);
      }
    }

    method TryCreateLocation(ghost base: seq<Signal>, ghost i: nat)
      requires Tracks(base, i) && signals.Length > 0
      modifies this, signals
      ensures Tracks(base, i) && View(base) == Close(old(View(base)))
    {
      var hdop := Fin(0.0);
      var template := signals[0];
      if lastLat != -1 {
        template := signals[lastLat];
      } else if lastLon != -1 {
        template := signals[lastLon];
      } else if lastHDOP != -1 {
        template := signals[lastHDOP];
      }
      ghost var t := View(base).open;
      var create, lat, lon := ConsumePair(base, i);
      if lastHDOP != -1 {
        if create {
          hdop := signals[lastHDOP].number;
        }
        Consume(lastHDOP, base, i, -1, -1);
      }
      if create {
        created := created + [Signal(template.header, template.eventId, lastTime, COORDINATES, Fin(0.0),
                                     Location(lat, lon, hdop))];
      }
      assert created == old(created) + CreatedBy(t);
      lastLat, lastLon, lastHDOP, lastTime := -1, -1, -1, 0;
    }

    method ProcessSignal(i: nat, ghost base: seq<Signal>)
      requires Tracks(base, i) && i < |base|
      modifies this, signals
      ensures Tracks(base, i + 1) && View(base) == Feed(old(View(base)), base[i])
    {
      var sig := signals[i];
      if lastTime != 0 && sig.ts - lastTime >= WINDOW {
        TryCreateLocation(base, i);
      }
      if KindOf(sig.name).Other? {
        return;
      }
      PlaceSignal(i, base);
    }

    /** Starts a new triple if the open one already has a part of this kind. */
    method MakeRoom(kind: Kind, ghost base: seq<Signal>, ghost i: nat)
      requires Tracks(base, i) && signals.Length > 0
      modifies this, signals
      ensures Tracks(base, i)
      ensures View(base) == if Slot(old(View(base)).open, kind).Some? then Close(old(View(base))) else old(View(base))
    {
      if (kind.Lat? && lastLat != -1) || (kind.Lon? && lastLon != -1) || (kind.Hdop? && lastHDOP != -1) {
        TryCreateLocation(base, i);
      }
    }

    method PlaceSignal(i: nat, ghost base: seq<Signal>)
      requires Tracks(base, i) && i < |base| && IsLoc(base[i])
      modifies this, signals
      ensures Tracks(base, i + 1) && View(base) == Place(old(View(base)), base[i])
    {
      var sig := signals[i];
      var kind := KindOf(sig.name);
      MakeRoom(kind, base, i);
      if kind.Lat? {
        lastLat := i;
      } else if kind.Lon? {
        lastLon := i;
      } else {
        lastHDOP := i;
      }
      if lastTime == 0 {
        lastTime := sig.ts;
      }
    }

    /** The loop of processSignals and the last attempt after it, on an array sorted as `base`. */
    method Scan(ghost base: seq<Signal>)
      requires Tracks(base, 0) && |base| > 0
      modifies this, signals
      ensures Tracks(base, |base|) && View(base) == Close(Run(old(View(base)), base))
    {
      for i := 0 to signals.Length
        invariant Tracks(base, i)
        invariant Run(View(base), base[i..]) == Run(old(View(base)), base)
      {
        assert base[i..][1..] == base[i + 1..];
        ProcessSignal(i, base);
      }
      assert base[|base|..] == [];
      TryCreateLocation(base, |base|);
    }

    /** `base` is the order the sort happened to choose. */
    method ProcessSignals() returns (out: seq<Signal>, ghost base: seq<Signal>)
      requires lastLat == -1 && lastLon == -1 && lastHDOP == -1 && lastTime == 0 && created == [] && errs == []
      modifies this, signals
      ensures SortOf(old(signals[..]), base)
      ensures out == Others(base) + created
      ensures Store(NO_TRIPLE, created, errs) == Close(Run(INITIAL, base))
    {
      base := signals[..];
      if signals.Length == 0 {
        out := [];
        return;
      }
      SortSignals(signals);
      base := signals[..];
      Scan(base);
      ghost var t := signals[..];
      KeptIsOthers(base, t);
      var n := DropPruned(signals);
      out := signals[..n] + created;
    }
  }

  lemma {:induction false} KeptIsOthers(base: seq<Signal>, t: seq<Signal>)
    requires |t| == |base|
    requires forall j :: 0 <= j < |base| ==> t[j] == Marked(base[j])
    ensures Kept(t) == Others(base)
  {
    if t != [] { KeptIsOthers(base[..|t| - 1], t[..|t| - 1]); }
  }
}
