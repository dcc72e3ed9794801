/** The whole backpressure call returns: while Run is inside applyBackpressure, any interleaving of
    its own steps with those of the workers is finite, and it cannot come to rest before the loop. */
module Backpressure {
  import opened Sink

  /** Run is inside applyBackpressure, or has just left it. */
  predicate Inside(r: Control) {
    r.Loop? || r.Check? || r.HandOff? || r.Wait? || (r.Charge? && r.next.ToWait?)
  }

  /** The steps that can happen meanwhile: those of the workers and those of the call itself. */
  predicate Meanwhile(c: Config, s: State, e: Step) {
    && Enabled(c, s, e)
    && (e.Work? || e.CheckCeiling? || e.TryHandOff? || e.AddInflight? || e.WakeUp? || e.StopWaiting?)
  }

  function Rank(r: Control): nat {
    match r
    case Check => 4
    case HandOff => 3
    case Charge(_) => 2
    case Wait => 1
    case _ => 0
  }

  /** The work the buffer will make once it is handed over; a sent buffer is in the queue already. */
  function BufferWork(s: State): nat {
    if s.run.Charge? || s.buffer.msgs == [] then 0 else 8 + 7 * |s.buffer.msgs|
  }

  /** Every worker step, every token taken and every step of the call lowers this. */
  function Effort(s: State): nat {
    5 * (WorkLeft(s) + BufferWork(s)) + 4 * s.flushed + Rank(s.run)
  }

  lemma {:induction false} QueueWorkAppend(js: seq<Batch>, b: Batch)
    ensures QueueWork(js + [b]) == QueueWork(js) + 8 + 7 * |b.msgs|
  {
    if js == [] {
      assert js + [b] == [b];
    } else {
      assert (js + [b])[1..] == js[1..] + [b];
      QueueWorkAppend(js[1..], b);
    }
  }

  lemma WorkLowersEffort(c: Config, s: State, w: nat, a: Act)
    requires WorkEnabled(s, w, a)
    ensures Effort(WorkStep(c, s, w, a)) < Effort(s)
  {
    WorkShrinks(c, s, w, a);
    WorkTouches(c, s, w, a);
  }

  lemma CallLowersEffort(c: Config, s: State, e: Step)
    requires Meanwhile(c, s, e) && !e.Work? && Inside(s.run)
    ensures Effort(RunStep(c, s, e)) < Effort(s) && Inside(RunStep(c, s, e).run)
  {
    QueueWorkAppend(s.jobs, s.buffer);
  }

  lemma StepLowersEffort(c: Config, s: State, e: Step, s': State)
    requires Meanwhile(c, s, e) && Inside(s.run) && s' == Next(c, s, e)
    ensures Effort(s') < Effort(s) && Inside(s'.run)
  {
    if e.Work? {
      WorkLowersEffort(c, s, e.worker, e.act);
      WorkTouches(c, s, e.worker, e.act);
    } else {
      CallLowersEffort(c, s, e);
    }
  }

  /** Nothing can happen but what starts outside the call. */
  ghost predicate AtRest(c: Config, s: State) {
    forall e :: !Meanwhile(c, s, e)
  }

  /** The call never comes to rest before it has returned. */
  lemma RestIsReturn(c: Config, s: State)
    requires Inv(c, s) && c.workers > 0 && Inside(s.run) && AtRest(c, s)
    ensures s.run.Loop?
  {
    assert !Meanwhile(c, s, CheckCeiling) && !Meanwhile(c, s, TryHandOff) && !Meanwhile(c, s, AddInflight);
    if s.run.Wait? {
      assert !Meanwhile(c, s, WakeUp);
      forall w: nat, a: Act ensures !WorkEnabled(s, w, a) {
        assert !Meanwhile(c, s, Work(w, a));
      }
      RestMeansIdle(c, s);
    }
  }

  /** `ss` goes on from a state of a run, by steps that can happen during the call. */
  ghost predicate During(c: Config, ss: seq<State>, es: seq<Step>) {
    && |ss| == |es| + 1
    && (forall i :: 0 <= i < |es| ==> Meanwhile(c, ss[i], es[i]) && ss[i + 1] == Next(c, ss[i], es[i]))
  }

  lemma {:induction false} DuringKeeps(c: Config, ss: seq<State>, es: seq<Step>, i: nat)
    requires During(c, ss, es) && Inv(c, ss[0]) && Inside(ss[0].run) && i < |ss|
    ensures Inv(c, ss[i]) && Inside(ss[i].run) && Effort(ss[i]) + i <= Effort(ss[0])
  {
    if i > 0 {
      DuringKeeps(c, ss, es, i - 1);
      StepKeepsInv(c, ss[i - 1], es[i - 1]);
      StepLowersEffort(c, ss[i - 1], es[i - 1], ss[i]);
    }
  }

  /** From any reachable state inside the call, in any order and with any writer, only finitely many
      steps can happen, and when no more can Run is back in its loop. */
  lemma BackpressureReturns(c: Config, run: seq<State>, steps: seq<Step>, ss: seq<State>, es: seq<Step>)
    requires IsRun(c, run, steps) && During(c, ss, es) && ss[0] == run[|steps|]
    requires c.workers > 0 && Inside(ss[0].run)
    ensures |es| <= Effort(ss[0])
    ensures AtRest(c, ss[|es|]) ==> ss[|es|].run.Loop?
  {
    RunInv(c, run, steps, |steps|);
    DuringKeeps(c, ss, es, |es|);
    if AtRest(c, ss[|es|]) { RestIsReturn(c, ss[|es|]); }
  }
}
