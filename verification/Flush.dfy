/** A flush worker, interleaved with everything else, performs exactly the recursive bisection:
    the step system of `Sink` refines the value-level pass of `Isolate`. */
module Flush {
  import opened Writes
  import opened Sink
  import Isolate

  function DeliveriesOf(msgs: seq<Msg>): seq<nat> {
    seq(|msgs|, i requires 0 <= i < |msgs| => msgs[i].deliveries)
  }

  /** The world in which the writer gives these answers in turn and, if `stopped`, the context is
      done as soon as they are used up. */
  function WorldOf(msgs: seq<Msg>, answers: seq<Outcome>, stopped: bool): Isolate.World {
    Isolate.World(
      (a: nat, lo: nat, hi: nat) => if a < |answers| then answers[a] else Transient,
      (a: nat) => stopped && a >= |answers|,
      DeliveriesOf(msgs))
  }

  /** The recursive calls still on the stack, run to the end from `p`. */
  function Unwind(world: Isolate.World, todo: seq<Range>, p: Isolate.Pass): Isolate.Pass
    decreases |todo|
  {
    if todo == [] then p
    else
      var Range(lo, hi) := todo[0];
      Unwind(world, todo[1..], if lo <= hi <= |world.deliveries| then Isolate.Bisect(world, lo, hi, p) else p)
  }

  /** The whole bisection of a bundle. */
  function Bisected(world: Isolate.World): Isolate.Pass {
    Isolate.Bisect(world, 0, |world.deliveries|, Isolate.FRESH)
  }

  /** Whatever the writer goes on to answer, finishing the stack from here is the same as running
      the recursion from the start. */
  ghost predicate Midway(msgs: seq<Msg>, answers: seq<Outcome>, todo: seq<Range>, done: Isolate.Pass) {
    && done.attempts == |answers|
    && forall all: seq<Outcome>, stopped: bool | answers <= all ::
         Unwind(WorldOf(msgs, all, stopped), todo, done) == Bisected(WorldOf(msgs, all, stopped))
  }

  ghost predicate OnTrack(me: Worker)
    requires me.Busy?
  {
    var msgs := me.job.msgs;
    if me.whole then
      me.done == Isolate.FRESH && me.answers == [] && !me.stopped && me.todo == [Range(0, |msgs|)]
    else
      || (me.todo == [] && !me.stopped && me.answers == [] && me.done == Isolate.Store(Isolate.FRESH, 0, |msgs|))
      || (!me.stopped && Midway(msgs, me.answers, me.todo, me.done))
      || (me.stopped && me.todo == [] && me.done.attempts == |me.answers|
          && me.done == Bisected(WorldOf(msgs, me.answers, true)))
  }

  ghost predicate AllOnTrack(s: State) {
    forall i :: 0 <= i < |s.workers| && s.workers[i].Busy? ==> OnTrack(s.workers[i])
  }

  lemma StartsMidway(msgs: seq<Msg>)
    ensures Midway(msgs, [], [Range(0, |msgs|)], Isolate.FRESH)
  {
    forall all: seq<Outcome>, stopped: bool | [] <= all
      ensures Unwind(WorldOf(msgs, all, stopped), [Range(0, |msgs|)], Isolate.FRESH)
              == Bisected(WorldOf(msgs, all, stopped))
    {
      assert [Range(0, |msgs|)][1..] == [];
    }
  }

  /** One entry of the recursion leaves its final result unchanged. */
  lemma AdvanceUnwinds(me: Worker, o: Outcome, world: Isolate.World)
    requires me.Busy? && me.todo != [] && world.deliveries == DeliveriesOf(me.job.msgs)
    requires Attempting(me) ==> !world.cancelled(me.done.attempts)
                                && world.write(me.done.attempts, me.todo[0].lo, me.todo[0].hi) == o
    ensures var me' := Advance(me, o); Unwind(world, me'.todo, me'.done) == Unwind(world, me.todo, me.done)
  {
    var Range(lo, hi) := me.todo[0];
    if Attempting(me) && !o.Stored? && hi - lo > 1 {
      var mid := lo + (hi - lo) / 2;
      var split := [Range(lo, mid), Range(mid, hi)] + me.todo[1..];
      assert split[1..] == [Range(mid, hi)] + me.todo[1..];
      assert split[1..][1..] == me.todo[1..];
    }
  }

  lemma AdvanceStaysMidway(me: Worker, o: Outcome)
    requires me.Busy? && me.todo != [] && Midway(me.job.msgs, me.answers, me.todo, me.done)
    ensures var me' := Advance(me, o); Midway(me.job.msgs, me'.answers, me'.todo, me'.done)
  {
    var msgs, me' := me.job.msgs, Advance(me, o);
    forall all: seq<Outcome>, stopped: bool | me'.answers <= all
      ensures Unwind(WorldOf(msgs, all, stopped), me'.todo, me'.done) == Bisected(WorldOf(msgs, all, stopped))
    {
      var world := WorldOf(msgs, all, stopped);
      assert me.answers <= all;
      AdvanceUnwinds(me, o, world);
    }
  }

  lemma {:induction false} DoneContextUnwinds(world: Isolate.World, todo: seq<Range>, p: Isolate.Pass)
    requires world.cancelled(p.attempts)
    ensures Unwind(world, todo, p) == p
    decreases |todo|
  {
    if todo != [] { DoneContextUnwinds(world, todo[1..], p); }
  }

  lemma AbandonStaysOnTrack(me: Worker)
    requires me.Busy? && !me.whole && me.todo != [] && OnTrack(me)
    ensures OnTrack(me.(todo := [], stopped := true))
  {
    var world := WorldOf(me.job.msgs, me.answers, true);
    assert Unwind(world, me.todo, me.done) == Bisected(world);
    DoneContextUnwinds(world, me.todo, me.done);
  }

  lemma WorkStaysOnTrack(c: Config, s: State, w: nat, a: Act)
    requires AllOnTrack(s) && WorkEnabled(s, w, a)
    ensures AllOnTrack(WorkStep(c, s, w, a))
  {
    var me, s' := s.workers[w], WorkStep(c, s, w, a);
    WorkTouches(c, s, w, a);
    if a.Write? && me.whole {
      StartsMidway(me.job.msgs);
    } else if a.Write? {
      AdvanceStaysMidway(me, a.outcome);
    } else if a.Abandon? {
      AbandonStaysOnTrack(me);
    }
    assert s'.workers[w].Busy? ==> OnTrack(s'.workers[w]);
  }

  // ----- Every stored row is acked -----

  /** The acks sent and those still to be sent for the range just stored are, in order, those of the
      ranges the flush stored. */
  ghost predicate AcksKeepUp(me: Worker)
    requires me.Busy?
  {
    me.ack.lo <= me.ack.hi && me.acks + Isolate.Rows(me.ack.lo, me.ack.hi) == me.done.acked
  }

  ghost predicate AllAcksKeepUp(s: State) {
    forall i :: 0 <= i < |s.workers| && s.workers[i].Busy? ==> AcksKeepUp(s.workers[i])
  }

  lemma AckKeepsUp(me: Worker)
    requires me.Busy? && AcksKeepUp(me) && me.ack.lo < me.ack.hi
    ensures AcksKeepUp(me.(ack := Range(me.ack.lo + 1, me.ack.hi), acks := me.acks + [me.ack.lo]))
  {
    var Range(lo, hi) := me.ack;
    assert Isolate.Rows(lo, hi) == [lo] + Isolate.Rows(lo + 1, hi);
  }

  lemma StoreKeepsUp(me: Worker, lo: nat, hi: nat)
    requires me.Busy? && AcksKeepUp(me) && me.ack.lo >= me.ack.hi && lo <= hi
    ensures me.acks + Isolate.Rows(lo, hi) == Isolate.Store(me.done, lo, hi).acked
  {
    assert Isolate.Rows(me.ack.lo, me.ack.hi) == [];
  }

  lemma WriteKeepsUp(s: State, w: nat, o: Outcome, termOk: bool)
    requires w < |s.workers| && s.workers[w].Busy? && AcksKeepUp(s.workers[w])
    requires s.workers[w].ack.lo >= s.workers[w].ack.hi && s.workers[w].todo != []
    ensures var me' := WriteWhole(s, w, o).workers[w]; me'.Busy? && AcksKeepUp(me')
    ensures var me' := WriteRange(s, w, o, termOk).workers[w]; me'.Busy? && AcksKeepUp(me')
  {
    var me := s.workers[w];
    StoreKeepsUp(me, 0, |me.job.msgs|);
    if Attempting(me) { StoreKeepsUp(me, me.todo[0].lo, me.todo[0].hi); }
  }

  lemma WorkKeepsUp(c: Config, s: State, w: nat, a: Act, s': State)
    requires AllAcksKeepUp(s) && WorkEnabled(s, w, a) && s' == WorkStep(c, s, w, a)
    ensures AllAcksKeepUp(s')
  {
    var me := s.workers[w];
    WorkTouches(c, s, w, a);
    if a.Write? {
      WriteKeepsUp(s, w, a.outcome, a.termOk);
    } else if a.Ack? {
      AckKeepsUp(me);
    }
    assert s'.workers[w].Busy? ==> AcksKeepUp(s'.workers[w]);
  }

  // ----- What the log holds of one flush -----

  /** The bundles stored by one flush, in order. */
  function StoredIn(log: seq<Attempt>, pass: nat): seq<seq<Msg>> {
    if log == [] then []
    else
      var a := log[|log| - 1];
      StoredIn(log[..|log| - 1], pass) + if a.pass == pass && a.outcome.Stored? then [a.msgs] else []
  }

  /** How often one flush called the writer. */
  function CallsIn(log: seq<Attempt>, pass: nat): nat {
    if log == [] then 0
    else CallsIn(log[..|log| - 1], pass) + if log[|log| - 1].pass == pass then 1 else 0
  }

  function Slice(msgs: seq<Msg>, r: Range): seq<Msg> {
    if r.lo <= r.hi <= |msgs| then msgs[r.lo..r.hi] else []
  }

  function Bundles(msgs: seq<Msg>, rs: seq<Range>): seq<seq<Msg>> {
    if rs == [] then [] else Bundles(msgs, rs[..|rs| - 1]) + [Slice(msgs, rs[|rs| - 1])]
  }

  /** The flush called the writer on message `i` of the bundle alone, and the call failed. */
  ghost predicate TriedAlone(log: seq<Attempt>, pass: nat, msgs: seq<Msg>, i: nat) {
    && i < |msgs|
    && exists j ::
         0 <= j < |log| && log[j].pass == pass && !log[j].outcome.Stored? && log[j].msgs == [msgs[i]]
  }

  ghost predicate Matches(log: seq<Attempt>, me: Worker)
    requires me.Busy?
  {
    && StoredIn(log, me.pass) == Bundles(me.job.msgs, me.done.commits)
    && CallsIn(log, me.pass) == |me.answers| + (if me.whole then 0 else 1)
    && (forall k :: 0 <= k < |me.done.alone| ==> TriedAlone(log, me.pass, me.job.msgs, me.done.alone[k]))
  }

  /** Flushes are told apart, and the log holds exactly what each busy worker did. */
  ghost predicate Logged(s: State) {
    && (forall j :: 0 <= j < |s.log| ==> s.log[j].pass < s.passes)
    && (forall i :: 0 <= i < |s.workers| && s.workers[i].Busy? ==> s.workers[i].pass < s.passes)
    && (forall i, k :: 0 <= i < k < |s.workers| && s.workers[i].Busy? && s.workers[k].Busy?
          ==> s.workers[i].pass != s.workers[k].pass)
    && (forall i :: 0 <= i < |s.workers| && s.workers[i].Busy? ==> Matches(s.log, s.workers[i]))
  }

  lemma {:induction false} UnusedPass(log: seq<Attempt>, pass: nat)
    requires forall j :: 0 <= j < |log| ==> log[j].pass != pass
    ensures StoredIn(log, pass) == [] && CallsIn(log, pass) == 0
  {
    if log != [] { UnusedPass(log[..|log| - 1], pass); }
  }

  lemma OthersMatch(log: seq<Attempt>, a: Attempt, me: Worker)
    requires me.Busy? && Matches(log, me) && a.pass != me.pass
    ensures Matches(log + [a], me)
  {
    TriesKept(log, a, me);
  }

  lemma TriesKept(log: seq<Attempt>, a: Attempt, me: Worker)
    requires me.Busy? && Matches(log, me)
    ensures forall k :: 0 <= k < |me.done.alone| ==> TriedAlone(log + [a], me.pass, me.job.msgs, me.done.alone[k])
    ensures StoredIn(log + [a], me.pass)
            == StoredIn(log, me.pass) + if a.pass == me.pass && a.outcome.Stored? then [a.msgs] else []
    ensures CallsIn(log + [a], me.pass) == CallsIn(log, me.pass) + if a.pass == me.pass then 1 else 0
  {
    var log' := log + [a];
    assert log'[..|log|] == log;
    forall k | 0 <= k < |me.done.alone| ensures TriedAlone(log', me.pass, me.job.msgs, me.done.alone[k]) {
      var i := me.done.alone[k];
      assert TriedAlone(log, me.pass, me.job.msgs, i);
      var j :| 0 <= j < |log| && log[j].pass == me.pass && !log[j].outcome.Stored? && log[j].msgs == [me.job.msgs[i]];
      assert log'[j] == log[j];
    }
  }

  lemma StoreMatches(me: Worker, lo: nat, hi: nat)
    requires me.Busy? && lo <= hi <= |me.job.msgs|
    ensures Bundles(me.job.msgs, Isolate.Store(me.done, lo, hi).commits)
            == Bundles(me.job.msgs, me.done.commits) + [me.job.msgs[lo..hi]]
  {
    assert (me.done.commits + [Range(lo, hi)])[..|me.done.commits|] == me.done.commits;
  }

  lemma WholeMatches(log: seq<Attempt>, me: Worker, o: Outcome, me': Worker)
    requires me.Busy? && me.whole && Matches(log, me) && OnTrack(me)
    requires var n := |me.job.msgs|;
             me' == if o.Stored?
                    then me.(whole := false, todo := [], ack := Range(0, n), done := Isolate.Store(me.done, 0, n))
                    else me.(whole := false, todo := [Range(0, n)])
    ensures Matches(log + [Attempt(me.pass, me.job.msgs, o)], me')
  {
    TriesKept(log, Attempt(me.pass, me.job.msgs, o), me);
    if o.Stored? {
      StoreMatches(me, 0, |me.job.msgs|);
      assert me.job.msgs[0..|me.job.msgs|] == me.job.msgs;
    }
  }

  lemma AdvanceMatches(log: seq<Attempt>, me: Worker, o: Outcome)
    requires me.Busy? && !me.whole && me.todo != [] && Matches(log, me) && Attempting(me)
    ensures Matches(log + [Attempt(me.pass, me.job.msgs[me.todo[0].lo..me.todo[0].hi], o)], Advance(me, o))
  {
    var Range(lo, hi) := me.todo[0];
    var a := Attempt(me.pass, me.job.msgs[lo..hi], o);
    var log' := log + [a];
    TriesKept(log, a, me);
    if o.Stored? {
      StoreMatches(me, lo, hi);
    } else if hi - lo == 1 {
      assert log'[|log|] == a && a.msgs == [me.job.msgs[lo]];
      assert TriedAlone(log', me.pass, me.job.msgs, lo);
    }
  }

  lemma CallStaysLogged(s: State, w: nat, a: Attempt, me': Worker, s': State)
    requires Logged(s) && w < |s.workers| && s.workers[w].Busy? && me'.Busy? && me'.pass == s.workers[w].pass == a.pass
    requires Matches(s.log + [a], me')
    requires s'.log == s.log + [a] && s'.passes == s.passes && s'.workers == s.workers[w := me']
    ensures Logged(s')
  {
    forall i | 0 <= i < |s'.workers| && s'.workers[i].Busy? ensures Matches(s'.log, s'.workers[i]) {
      if i != w { OthersMatch(s.log, a, s.workers[i]); }
    }
  }

  lemma TakeStaysLogged(c: Config, s: State, w: nat)
    requires Logged(s) && WorkEnabled(s, w, Take)
    ensures Logged(WorkStep(c, s, w, Take))
  {
    UnusedPass(s.log, s.passes);
  }

  /** A step that calls no writer leaves the log as accurate as it was. */
  lemma QuietStaysLogged(s: State, w: nat, me': Worker, s': State)
    requires Logged(s) && w < |s.workers|
    requires me'.Busy? ==>
               && s.workers[w].Busy?
               && me' == s.workers[w].(todo := me'.todo, stopped := me'.stopped, ack := me'.ack, acks := me'.acks)
    requires s'.log == s.log && s'.passes == s.passes && s'.workers == s.workers[w := me']
    ensures Logged(s')
  {
    assert me'.Busy? ==> Matches(s.log, me');
  }

  lemma WriteStaysLogged(c: Config, s: State, w: nat, a: Act, s': State)
    requires Logged(s) && AllOnTrack(s) && WorkEnabled(s, w, a) && a.Write? && s' == WorkStep(c, s, w, a)
    ensures Logged(s')
  {
    var me, me' := s.workers[w], s'.workers[w];
    if me.whole {
      WholeMatches(s.log, me, a.outcome, me');
      CallStaysLogged(s, w, Attempt(me.pass, me.job.msgs, a.outcome), me', s');
    } else if Attempting(me) {
      AdvanceMatches(s.log, me, a.outcome);
      CallStaysLogged(s, w, Attempt(me.pass, me.job.msgs[me.todo[0].lo..me.todo[0].hi], a.outcome), me', s');
    } else {
      QuietStaysLogged(s, w, me', s');
    }
  }

  lemma WorkStaysLogged(c: Config, s: State, w: nat, a: Act, s': State)
    requires Logged(s) && AllOnTrack(s) && WorkEnabled(s, w, a) && s' == WorkStep(c, s, w, a)
    ensures Logged(s')
  {
    if a.Take? {
      TakeStaysLogged(c, s, w);
    } else if a.Write? {
      WriteStaysLogged(c, s, w, a, s');
    } else {
      QuietStaysLogged(s, w, s'.workers[w], s');
    }
  }

  // ----- Every reachable state -----

  /** No job is empty: only a buffer holding messages is ever sent. */
  ghost predicate Loaded(s: State) {
    && (forall i :: 0 <= i < |s.jobs| ==> s.jobs[i].msgs != [])
    && (forall i :: 0 <= i < |s.workers| && s.workers[i].Busy? ==> s.workers[i].job.msgs != [])
  }

  ghost predicate Faithful(s: State) {
    Loaded(s) && AllOnTrack(s) && Logged(s) && AllAcksKeepUp(s)
  }

  /** Run reaches the workers only through the queue, and only with messages. */
  lemma RunTouches(c: Config, s: State, e: Step, s': State)
    requires RunEnabled(c, s, e) && s' == RunStep(c, s, e)
    ensures s'.log == s.log && s'.passes == s.passes
    ensures if e.Crash? then s'.jobs == [] && forall i :: 0 <= i < |s'.workers| ==> s'.workers[i].Free?
            else && s'.workers == s.workers
                 && (s'.jobs == s.jobs || (s.buffer.msgs != [] && s'.jobs == s.jobs + [s.buffer]))
  {
  }

  lemma RunStaysFaithful(c: Config, s: State, e: Step, s': State)
    requires Faithful(s) && RunEnabled(c, s, e) && s' == RunStep(c, s, e)
    ensures Faithful(s')
  {
    RunTouches(c, s, e, s');
  }

  lemma WorkStaysLoaded(c: Config, s: State, w: nat, a: Act)
    requires Loaded(s) && WorkEnabled(s, w, a)
    ensures Loaded(WorkStep(c, s, w, a))
  {
    WorkTouches(c, s, w, a);
  }

  lemma {:induction false} RunIsFaithful(c: Config, ss: seq<State>, es: seq<Step>, i: nat)
    requires IsRun(c, ss, es) && i < |ss|
    ensures Faithful(ss[i])
  {
    if i > 0 {
      RunIsFaithful(c, ss, es, i - 1);
      var s, e := ss[i - 1], es[i - 1];
      if e.Work? {
        WorkStaysLoaded(c, s, e.worker, e.act);
        WorkStaysOnTrack(c, s, e.worker, e.act);
        WorkStaysLogged(c, s, e.worker, e.act, ss[i]);
        WorkKeepsUp(c, s, e.worker, e.act, ss[i]);
      } else {
        RunStaysFaithful(c, s, e, ss[i]);
      }
    }
  }

  /** How the pass of a finished flush relates to the recursion: it is the recursion's result for
      the answers the writer gave, or the bundle was stored whole. */
  ghost predicate IsBisection(me: Worker)
    requires me.Busy?
  {
    || (me.answers == [] && me.done == Isolate.Store(Isolate.FRESH, 0, |me.job.msgs|))
    || (me.done.attempts == |me.answers| && me.done == Bisected(WorldOf(me.job.msgs, me.answers, me.stopped)))
  }

  lemma FinishedIsBisection(me: Worker)
    requires me.Busy? && me.todo == [] && OnTrack(me)
    ensures IsBisection(me) && !me.whole
  {
    if Midway(me.job.msgs, me.answers, me.todo, me.done) {
      var world := WorldOf(me.job.msgs, me.answers, me.stopped);
      assert Unwind(world, me.todo, me.done) == Bisected(world);
    }
  }

  /** Every message is in exactly one stored range, or failed alone, but not both. */
  ghost predicate EachSettled(n: nat, p: Isolate.Pass) {
    forall i: nat :: i < n ==> (i in Isolate.Flatten(p.commits)) != (i in p.alone)
  }

  lemma WholeSettles(n: nat)
    requires n > 0
    ensures Isolate.Ordered(Isolate.Store(Isolate.FRESH, 0, n).commits, n)
    ensures EachSettled(n, Isolate.Store(Isolate.FRESH, 0, n))
    ensures Isolate.Store(Isolate.FRESH, 0, n).acked == Isolate.Flatten(Isolate.Store(Isolate.FRESH, 0, n).commits)
  {
    var p := Isolate.Store(Isolate.FRESH, 0, n);
    assert p.commits == [Range(0, n)];
    assert Isolate.Flatten([Range(0, n)]) == Isolate.Rows(0, n);
    forall i: nat | i < n ensures i in Isolate.Flatten(p.commits) {
      assert Isolate.Rows(0, n)[i] == i;
    }
  }

  lemma BisectionSettles(msgs: seq<Msg>, answers: seq<Outcome>, stopped: bool, p: Isolate.Pass)
    requires msgs != [] && p == Bisected(WorldOf(msgs, answers, stopped))
    ensures Isolate.Ordered(p.commits, |msgs|) && p.attempts <= 2 * |msgs| - 1
    ensures !stopped ==> (p.commits == [] && p.attempts <= PROBE_LIMIT) || EachSettled(|msgs|, p)
  {
    var world := WorldOf(msgs, answers, stopped);
    Isolate.AttemptsAtMostTwicePerRow(world, 0, |msgs|, Isolate.FRESH);
    Isolate.CancelledPassIsSafe(world);
    if !stopped { Isolate.PassDichotomy(world); }
  }

  /** A flush in any run, whatever interleaves with it: when its pass is over, the bundles it stored
      are disjoint ranges of its job in increasing order, it called the writer at most twice per
      message, every row it failed alone was really tried alone, and unless the context was done it
      either stored nothing within nine calls or settled every message exactly one way. */
  lemma FlushSettles(c: Config, ss: seq<State>, es: seq<Step>, i: nat, w: nat)
    requires IsRun(c, ss, es) && i < |ss| && w < |ss[i].workers|
    requires ss[i].workers[w].Busy? && ss[i].workers[w].todo == []
    ensures var log, me := ss[i].log, ss[i].workers[w];
            var n := |me.job.msgs|;
            && IsBisection(me)
            && StoredIn(log, me.pass) == Bundles(me.job.msgs, me.done.commits) && Isolate.Ordered(me.done.commits, n)
            && CallsIn(log, me.pass) <= 2 * n
            && (forall k :: 0 <= k < |me.done.alone| ==> TriedAlone(log, me.pass, me.job.msgs, me.done.alone[k]))
            && (!me.stopped ==> || (StoredIn(log, me.pass) == [] && CallsIn(log, me.pass) <= 1 + PROBE_LIMIT)
                                || EachSettled(n, me.done))
  {
    var me := ss[i].workers[w];
    RunIsFaithful(c, ss, es, i);
    FinishedIsBisection(me);
    if me.answers == [] && me.done == Isolate.Store(Isolate.FRESH, 0, |me.job.msgs|) {
      WholeSettles(|me.job.msgs|);
    } else {
      BisectionSettles(me.job.msgs, me.answers, me.stopped, me.done);
    }
  }

  /** When a worker is done with a job, it has sent the ack of every row of every range it stored, in
      order and once, and no other. */
  lemma FinishedJobIsAcked(c: Config, ss: seq<State>, es: seq<Step>, i: nat, w: nat)
    requires IsRun(c, ss, es) && i < |ss| && WorkEnabled(ss[i], w, Finish)
    ensures var me := ss[i].workers[w];
            me.acks == Isolate.Flatten(me.done.commits) && Isolate.Ascending(me.acks)
  {
    var me := ss[i].workers[w];
    RunIsFaithful(c, ss, es, i);
    FinishedIsBisection(me);
    assert Isolate.Rows(me.ack.lo, me.ack.hi) == [];
    if me.answers == [] && me.done == Isolate.Store(Isolate.FRESH, 0, |me.job.msgs|) {
      WholeSettles(|me.job.msgs|);
    } else {
      Isolate.CancelledPassIsSafe(WorldOf(me.job.msgs, me.answers, me.stopped));
    }
  }
}
