/** The sink as an interleaved step system: the Run goroutine, its flush workers, the `jobs` and
    `flushed` channels, the shared `inflight` counter, the broker and the lake. Each step is one
    action that other goroutines can observe; a run is any interleaving, with crashes. */
module Sink {
  import opened Writes
  import Isolate

  /** One delivery of a WAL message. `deliveries` is the count in its metadata (0 if unavailable). */
  datatype Msg = Msg(id: nat, wire: nat, data: nat, data64: nat, deliveries: nat)

  const MSG_OVERHEAD: nat := 512
  const QUEUE_PER_WORKER: nat := 8

  /** bufferedFootprint: the resident bytes one buffered message pins. */
  function Footprint(m: Msg): nat {
    m.wire + m.data + m.data64 + MSG_OVERHEAD
  }

  function Resident(ms: seq<Msg>): nat {
    if ms == [] then 0 else Resident(ms[..|ms| - 1]) + Footprint(ms[|ms| - 1])
  }

  /** An eventBuffer or a flushJob, with the running totals the source keeps beside the messages. */
  datatype Batch = Batch(msgs: seq<Msg>, bytes: nat, footprint: nat)

  const EMPTY := Batch([], 0, 0)

  function Append(b: Batch, m: Msg): Batch {
    Batch(b.msgs + [m], b.bytes + m.wire, b.footprint + Footprint(m))
  }

  datatype Config = Config(
    workers: nat,
    ceiling: int,       // MaxBufferedBytes
    maxRows: nat, maxBytes: nat, minFlush: nat, maxAge: nat, maxAgeHard: nat,
    decodable: nat -> bool)

  predicate FlushDue(c: Config, b: Batch, age: nat) {
    || |b.msgs| >= c.maxRows
    || b.bytes >= c.maxBytes
    || (age >= c.maxAge && b.bytes >= c.minFlush)
    || age >= c.maxAgeHard
  }

  /** Where Run continues after a hand-off. */
  datatype Resume = ToLoop | ToCheck | ToWait | ToClosed

  /** Run's control point. `Charge` lies between a successful send and the addition to inflight. */
  datatype Control =
    | Loop
    | Ready(next: Resume)
    | Charge(next: Resume)
    | Check
    | HandOff
    | Wait
    | Drain
    | Closed

  function Continue(r: Resume): Control {
    match r
    case ToLoop => Loop
    case ToCheck => Check
    case ToWait => Wait
    case ToClosed => Closed
  }

  /** A flush worker. `whole` holds until the first write of the bundle. `todo` is the call stack of
      isolateRange, top first, and `stopped` says it was abandoned because the context was done;
      `ack` is what remains to be acked of the range just stored, `acks` the rows whose ack was sent.
      `done` is the isolate state and what the pass did so far, `answers` what the writer answered to
      each of its calls. */
  datatype Worker =
    | Free
    | Busy(job: Batch, pass: nat, whole: bool, todo: seq<Range>, stopped: bool, ack: Range, acks: seq<nat>,
           done: Isolate.Pass, answers: seq<Outcome>)
    | Releasing

  /** One WriteBundle call, as history. */
  datatype Attempt = Attempt(pass: nat, msgs: seq<Msg>, outcome: Outcome)

  datatype State = State(
    run: Control,
    buffer: Batch,
    jobs: seq<Batch>,
    inflight: int,
    flushed: nat,
    workers: seq<Worker>,
    cancelled: bool,        // ctx is done
    // broker and lake: these survive a crash
    log: seq<Attempt>,
    acked: set<nat>,
    termed: set<nat>,
    // history
    passes: nat,
    slack: nat)

  function Boot(c: Config, log: seq<Attempt>, acked: set<nat>, termed: set<nat>, passes: nat): State {
    State(Loop, EMPTY, [], 0, 0, seq(c.workers, _ => Free), false, log, acked, termed, passes, 0)
  }

  datatype Step =
    | Cancel
    | Receive(msg: Msg, termOk: bool)
    | Tick
    | FlushReady(age: nat)
    | AddInflight
    | CheckCeiling
    | TryHandOff
    | WakeUp
    | StopWaiting
    | StreamClosed
    | DrainSend
    | DrainSkip
    | Fatal
    | Crash
    | Work(worker: nat, act: Act)

  datatype Act = Take | Write(outcome: Outcome, termOk: bool) | Ack(ok: bool) | Abandon | Finish | Signal

  predicate QueueFull(c: Config, s: State) {
    |s.jobs| >= QUEUE_PER_WORKER * c.workers
  }

  // ----- Steps of the Run goroutine and of its environment -----

  predicate RunEnabled(c: Config, s: State, e: Step) {
    match e
    case Cancel => true
    case Crash => true
    case Receive(_, _) => s.run.Loop?
    case Tick => s.run.Loop?
    case StreamClosed => s.run.Loop?
    case Fatal => s.run.Loop?
    case FlushReady(_) => s.run.Ready?
    case AddInflight => s.run.Charge?
    case CheckCeiling => s.run.Check?
    case TryHandOff => s.run.HandOff?
    case WakeUp => s.run.Wait? && s.flushed > 0
    case StopWaiting => s.run.Wait? && s.cancelled
    case DrainSend => s.run.Drain? && s.buffer.msgs != [] && !QueueFull(c, s)
    case DrainSkip => s.run.Drain?
    case Work(_, _) => false
  }

  /** The non-blocking send of enqueue: into the queue if it has room, otherwise on to `next`. */
  function Send(c: Config, s: State, next: Resume): State {
    if QueueFull(c, s) then s.(run := Continue(next))
    else s.(jobs := s.jobs + [s.buffer], run := Charge(next))
  }

  function RunStep(c: Config, s: State, e: Step): State
    requires RunEnabled(c, s, e)
  {
    match e
    case Cancel => s.(cancelled := true)
    case Crash => Boot(c, s.log, s.acked, s.termed, s.passes)
    case Receive(m, termOk) =>
      if !c.decodable(m.id) then
        s.(run := Ready(ToCheck), termed := if termOk then s.termed + {m.id} else s.termed)
      else
        s.(run := Ready(ToCheck), buffer := Append(s.buffer, m),
           slack := Footprint(m) + if s.cancelled then s.slack else 0)
    case Tick => s.(run := Ready(ToLoop))
    case StreamClosed => s.(run := Drain)
    case Fatal => s.(run := Closed, buffer := EMPTY)
    case FlushReady(age) =>
      if s.buffer.msgs != [] && FlushDue(c, s.buffer, age) then Send(c, s, s.run.next)
      else s.(run := Continue(s.run.next))
    case AddInflight =>
      s.(inflight := s.inflight + s.buffer.footprint, buffer := EMPTY, run := Continue(s.run.next))
    case CheckCeiling =>
      if c.ceiling <= 0 || s.buffer.footprint + s.inflight < c.ceiling then s.(run := Loop)
      else s.(run := HandOff)
    case TryHandOff =>
      if s.buffer.msgs != [] then Send(c, s, ToWait) else s.(run := Wait)
    case WakeUp => s.(flushed := s.flushed - 1, run := Check)
    case StopWaiting => s.(run := Loop)
    case DrainSend => s.(jobs := s.jobs + [s.buffer], run := Charge(ToClosed))
    case DrainSkip => s.(run := Closed)
  }

  // ----- Steps of a worker -----

  predicate WorkEnabled(s: State, w: nat, a: Act) {
    && w < |s.workers|
    && var me := s.workers[w];
       match a
       case Take => me.Free? && s.jobs != []
       case Write(_, _) => me.Busy? && me.todo != [] && me.ack.lo >= me.ack.hi
       case Ack(_) => me.Busy? && me.ack.lo < me.ack.hi && me.ack.hi <= |me.job.msgs|
       case Abandon => me.Busy? && !me.whole && me.todo != [] && me.ack.lo >= me.ack.hi
       case Finish => me.Busy? && me.todo == [] && me.ack.lo >= me.ack.hi
       case Signal => me.Releasing?
  }

  /** flush's own WriteBundle call: the whole bundle at once. */
  function WriteWhole(s: State, w: nat, o: Outcome): State
    requires w < |s.workers| && s.workers[w].Busy?
  {
    var me := s.workers[w];
    var n := |me.job.msgs|;
    var me' := if o.Stored?
               then me.(whole := false, todo := [], ack := Range(0, n), done := Isolate.Store(me.done, 0, n))
               else me.(whole := false, todo := [Range(0, n)]);
    s.(log := s.log + [Attempt(me.pass, me.job.msgs, o)], workers := s.workers[w := me'])
  }

  /** The top entry of the bisection leads to a WriteBundle call rather than an early return. */
  predicate Attempting(me: Worker)
    requires me.Busy? && me.todo != []
  {
    me.todo[0].lo < me.todo[0].hi <= |me.job.msgs| && !ProbeExhausted(me.done.committed, me.done.attempts)
  }

  /** What one entry of isolateRange does to the worker itself. */
  function Advance(me: Worker, o: Outcome): Worker
    requires me.Busy? && me.todo != []
  {
    var Range(lo, hi) := me.todo[0];
    var rest := me.todo[1..];
    if !Attempting(me) then me.(todo := rest)
    else
      var me1 := me.(answers := me.answers + [o], todo := rest);
      if o.Stored? then me1.(done := Isolate.Store(me.done, lo, hi), ack := Range(lo, hi))
      else if hi - lo == 1 then me1.(done := Isolate.FailAlone(me.done, lo, o, me.job.msgs[lo].deliveries))
      else
        var mid := lo + (hi - lo) / 2;
        me1.(done := Isolate.FailWide(me.done, lo, hi), todo := [Range(lo, mid), Range(mid, hi)] + rest)
  }

  /** One entry of isolateRange: the probe limit, or a write of the top range. */
  function WriteRange(s: State, w: nat, o: Outcome, termOk: bool): State
    requires w < |s.workers| && s.workers[w].Busy? && s.workers[w].todo != []
  {
    var me := s.workers[w];
    var Range(lo, hi) := me.todo[0];
    var s1 := s.(workers := s.workers[w := Advance(me, o)]);
    if !Attempting(me) then s1
    else
      var drop := termOk && hi - lo == 1 && TermsRow(o, me.done.committed, me.job.msgs[lo].deliveries);
      s1.(log := s.log + [Attempt(me.pass, me.job.msgs[lo..hi], o)],
          termed := if drop then s.termed + {me.job.msgs[lo].id} else s.termed)
  }

  function WorkStep(c: Config, s: State, w: nat, a: Act): State
    requires WorkEnabled(s, w, a)
  {
    var me := s.workers[w];
    match a
    case Take =>
      var job := s.jobs[0];
      s.(jobs := s.jobs[1..], passes := s.passes + 1,
         workers := s.workers[w := Busy(job, s.passes, true, [Range(0, |job.msgs|)], false, Range(0, 0), [],
                                        Isolate.FRESH, [])])
    case Write(o, termOk) => if me.whole then WriteWhole(s, w, o) else WriteRange(s, w, o, termOk)
    case Ack(ok) =>
      s.(acked := if ok then s.acked + {me.job.msgs[me.ack.lo].id} else s.acked,
         workers := s.workers[w := me.(ack := Range(me.ack.lo + 1, me.ack.hi), acks := me.acks + [me.ack.lo])])
    case Abandon => s.(workers := s.workers[w := me.(todo := [], stopped := true)])
    case Finish => s.(inflight := s.inflight - me.job.footprint, workers := s.workers[w := Releasing])
    case Signal =>
      s.(flushed := if s.flushed < c.workers then s.flushed + 1 else s.flushed, workers := s.workers[w := Free])
  }

  predicate Enabled(c: Config, s: State, e: Step) {
    if e.Work? then WorkEnabled(s, e.worker, e.act) else RunEnabled(c, s, e)
  }

  function Next(c: Config, s: State, e: Step): State
    requires Enabled(c, s, e)
  {
    if e.Work? then WorkStep(c, s, e.worker, e.act) else RunStep(c, s, e)
  }

  /** `ss` is a run from a first boot, taking step es[i] from ss[i] to ss[i + 1]. */
  ghost predicate IsRun(c: Config, ss: seq<State>, es: seq<Step>) {
    && |ss| == |es| + 1
    && ss[0] == Boot(c, [], {}, {}, 0)
    && (forall i :: 0 <= i < |es| ==> Enabled(c, ss[i], es[i]) && ss[i + 1] == Next(c, ss[i], es[i]))
  }

  // ----- Accounting -----

  function QueuedBytes(js: seq<Batch>): nat {
    if js == [] then 0 else js[0].footprint + QueuedBytes(js[1..])
  }

  function Load(w: Worker): nat {
    if w.Busy? then w.job.footprint else 0
  }

  function FlushingBytes(ws: seq<Worker>): nat {
    if ws == [] then 0 else Load(ws[0]) + FlushingBytes(ws[1..])
  }

  /** What enqueue has sent but not yet added to inflight. */
  function Uncharged(s: State): nat {
    if s.run.Charge? then s.buffer.footprint else 0
  }

  /** Resident bytes of the buffer and of every unfinished job; while a sent buffer is still
      referenced by Run it is the same memory as the job and counts once. */
  function TotalResident(s: State): nat {
    (if s.run.Charge? then 0 else s.buffer.footprint) + QueuedBytes(s.jobs) + FlushingBytes(s.workers)
  }

  ghost predicate Honest(b: Batch) {
    b.footprint == Resident(b.msgs)
  }

  ghost predicate QueueOk(c: Config, jobs: seq<Batch>) {
    && |jobs| <= QUEUE_PER_WORKER * c.workers
    && (forall i :: 0 <= i < |jobs| ==> Honest(jobs[i]))
  }

  ghost predicate WorkersOk(c: Config, workers: seq<Worker>) {
    && |workers| == c.workers
    && (forall i :: 0 <= i < |workers| && workers[i].Busy? ==>
          Honest(workers[i].job) && workers[i].ack.hi <= |workers[i].job.msgs|)
  }

  /** inflight is exact: the footprints of queued and flushing jobs, minus the one charge that
      enqueue has not added yet. */
  ghost predicate Accounted(c: Config, s: State) {
    && QueueOk(c, s.jobs) && WorkersOk(c, s.workers) && Honest(s.buffer)
    && s.flushed <= c.workers
    && s.inflight == QueuedBytes(s.jobs) + FlushingBytes(s.workers) - Uncharged(s)
  }

  lemma {:induction false} QueuedAppend(js: seq<Batch>, b: Batch)
    ensures QueuedBytes(js + [b]) == QueuedBytes(js) + b.footprint
  {
    if js == [] {
      assert js + [b] == [b];
    } else {
      assert (js + [b])[1..] == js[1..] + [b];
      QueuedAppend(js[1..], b);
    }
  }

  lemma {:induction false} FlushingUpdate(ws: seq<Worker>, i: nat, x: Worker)
    requires i < |ws|
    ensures FlushingBytes(ws[i := x]) == FlushingBytes(ws) - Load(ws[i]) + Load(x)
  {
    if i == 0 {
      assert ws[i := x][1..] == ws[1..];
    } else {
      assert ws[i := x][1..] == ws[1..][i - 1 := x];
      FlushingUpdate(ws[1..], i - 1, x);
    }
  }

  lemma {:induction false} AllFreeIsNothing(ws: seq<Worker>)
    requires forall i :: 0 <= i < |ws| ==> !ws[i].Busy?
    ensures FlushingBytes(ws) == 0
  {
    if ws != [] { AllFreeIsNothing(ws[1..]); }
  }

  lemma BootAccounted(c: Config, log: seq<Attempt>, acked: set<nat>, termed: set<nat>, passes: nat)
    ensures Accounted(c, Boot(c, log, acked, termed, passes))
    ensures FlushingBytes(Boot(c, log, acked, termed, passes).workers) == 0
  {
    AllFreeIsNothing(seq(c.workers, _ => Free));
  }

  lemma AppendHonest(b: Batch, m: Msg)
    requires Honest(b)
    ensures Honest(Append(b, m))
  {
    assert (b.msgs + [m])[..|b.msgs|] == b.msgs;
  }

  lemma QueueSend(c: Config, s: State)
    requires QueueOk(c, s.jobs) && Honest(s.buffer) && !QueueFull(c, s)
    ensures QueueOk(c, s.jobs + [s.buffer])
    ensures QueuedBytes(s.jobs + [s.buffer]) == QueuedBytes(s.jobs) + s.buffer.footprint
  {
    QueuedAppend(s.jobs, s.buffer);
  }

  lemma SendKeepsAccounts(c: Config, s: State, next: Resume)
    requires Accounted(c, s) && !s.run.Charge?
    ensures Accounted(c, Send(c, s, next))
    ensures TotalResident(Send(c, s, next)) == TotalResident(s)
  {
    if !QueueFull(c, s) { QueueSend(c, s); }
  }

  lemma ReceiveKeepsAccounts(c: Config, s: State, m: Msg, termOk: bool)
    requires Accounted(c, s) && s.run.Loop?
    ensures Accounted(c, RunStep(c, s, Receive(m, termOk)))
    ensures TotalResident(RunStep(c, s, Receive(m, termOk)))
            == TotalResident(s) + if c.decodable(m.id) then Footprint(m) else 0
  {
    AppendHonest(s.buffer, m);
  }

  /** A step of Run that neither receives, sends nor crashes. */
  predicate IsQuiet(e: Step) {
    || e.Cancel? || e.Tick? || e.StreamClosed? || e.Fatal? || e.AddInflight?
    || e.CheckCeiling? || e.WakeUp? || e.StopWaiting? || e.DrainSkip?
  }

  lemma QuietKeepsAccounts(c: Config, s: State, e: Step)
    requires Accounted(c, s) && RunEnabled(c, s, e) && IsQuiet(e)
    ensures Accounted(c, RunStep(c, s, e)) && TotalResident(RunStep(c, s, e)) <= TotalResident(s)
  {
  }

  lemma SendingKeepsAccounts(c: Config, s: State, e: Step)
    requires Accounted(c, s) && RunEnabled(c, s, e) && (e.FlushReady? || e.TryHandOff? || e.DrainSend?)
    ensures Accounted(c, RunStep(c, s, e)) && TotalResident(RunStep(c, s, e)) <= TotalResident(s)
  {
    match e
    case FlushReady(_) => SendKeepsAccounts(c, s, s.run.next);
    case TryHandOff => SendKeepsAccounts(c, s, ToWait);
    case DrainSend => QueueSend(c, s);
  }

  lemma RunKeepsAccounts(c: Config, s: State, e: Step, s': State)
    requires Accounted(c, s) && RunEnabled(c, s, e) && s' == RunStep(c, s, e)
    ensures Accounted(c, s')
    ensures !e.Receive? ==> TotalResident(s') <= TotalResident(s)
    ensures e.Receive? ==>
              TotalResident(s') == TotalResident(s) + if c.decodable(e.msg.id) then Footprint(e.msg) else 0
  {
    if e.Receive? {
      ReceiveKeepsAccounts(c, s, e.msg, e.termOk);
    } else if e.Crash? {
      BootAccounted(c, s.log, s.acked, s.termed, s.passes);
    } else if IsQuiet(e) {
      QuietKeepsAccounts(c, s, e);
    } else {
      SendingKeepsAccounts(c, s, e);
    }
  }

  /** What one worker action may do to the queue, the counter and its own slot. */
  lemma WorkTouches(c: Config, s: State, w: nat, a: Act)
    requires WorkEnabled(s, w, a)
    ensures var s', me := WorkStep(c, s, w, a), s.workers[w];
            && |s'.workers| == |s.workers| && s'.workers == s.workers[w := s'.workers[w]]
            && s'.run == s.run && s'.buffer == s.buffer && s'.cancelled == s.cancelled && s'.slack == s.slack
            && s'.jobs == (if a.Take? then s.jobs[1..] else s.jobs)
            && s'.inflight == (if a.Finish? then s.inflight - me.job.footprint else s.inflight)
            && (s'.workers[w].Busy? && (me.Busy? ==> me.ack.hi <= |me.job.msgs|)
                ==> s'.workers[w].ack.hi <= |s'.workers[w].job.msgs|)
            && (a.Take? ==> s'.workers[w].Busy? && s'.workers[w].job == s.jobs[0])
            && (a.Finish? ==> s'.workers[w].Releasing?)
            && (a.Signal? ==> s'.workers[w].Free?)
            && (!a.Take? && !a.Finish? && !a.Signal? ==> s'.workers[w].Busy? && s'.workers[w].job == me.job)
            && (a.Signal? ==> s'.flushed == if s.flushed < c.workers then s.flushed + 1 else s.flushed)
            && (!a.Signal? ==> s'.flushed == s.flushed)
  {
  }

  lemma WorkKeepsAccounts(c: Config, s: State, w: nat, a: Act)
    requires Accounted(c, s) && WorkEnabled(s, w, a)
    ensures Accounted(c, WorkStep(c, s, w, a))
    ensures TotalResident(WorkStep(c, s, w, a)) <= TotalResident(s)
  {
    WorkTouches(c, s, w, a);
    FlushingUpdate(s.workers, w, WorkStep(c, s, w, a).workers[w]);
  }

  // ----- Memory -----

  /** Run has accepted nothing since it last saw itself under the ceiling. */
  predicate Settled(r: Control) {
    r.Loop? || (r.Ready? && r.next.ToLoop?) || (r.Charge? && r.next.ToLoop?)
  }

  /** A hand-off resumes only where it was started from. */
  predicate ResumesWhereItStarted(r: Control) {
    && (r.Ready? ==> r.next.ToLoop? || r.next.ToCheck?)
  }

  ghost predicate Bounded(c: Config, s: State) {
    c.ceiling > 0 ==>
      && TotalResident(s) < c.ceiling + s.slack
      && (Settled(s.run) && !s.cancelled ==> TotalResident(s) < c.ceiling)
      && ResumesWhereItStarted(s.run)
  }

  lemma RunKeepsBound(c: Config, s: State, e: Step)
    requires Accounted(c, s) && Bounded(c, s) && RunEnabled(c, s, e)
    ensures Bounded(c, RunStep(c, s, e))
  {
    RunKeepsAccounts(c, s, e, RunStep(c, s, e));
    if e.Crash? { BootAccounted(c, s.log, s.acked, s.termed, s.passes); }
  }

  lemma WorkKeepsBound(c: Config, s: State, w: nat, a: Act)
    requires Accounted(c, s) && Bounded(c, s) && WorkEnabled(s, w, a)
    ensures Bounded(c, WorkStep(c, s, w, a))
  {
    WorkTouches(c, s, w, a);
    WorkKeepsAccounts(c, s, w, a);
  }

  // ----- Wake-ups -----

  /** Some job is queued, being flushed, or subtracted but not yet signalled. */
  ghost predicate Active(s: State) {
    s.jobs != [] || exists i :: 0 <= i < |s.workers| && !s.workers[i].Free?
  }

  ghost predicate WillWake(s: State) {
    s.flushed > 0 || Active(s)
  }

  /** No lost wake-up, with the control points that lead to the wait. */
  ghost predicate NeverStuck(c: Config, s: State) {
    && (s.run.Wait? || (s.run.Charge? && s.run.next.ToWait?) ==> WillWake(s))
    && (s.run.HandOff? ==> s.buffer.msgs != [] || WillWake(s))
    && (s.run.Ready? ==> !s.run.next.ToWait?)
  }

  lemma {:induction false} BusyExists(ws: seq<Worker>)
    requires FlushingBytes(ws) > 0
    ensures exists i :: 0 <= i < |ws| && !ws[i].Free?
  {
    if forall i :: 0 <= i < |ws| ==> ws[i].Free? { AllFreeIsNothing(ws); }
  }

  lemma RunKeepsAwake(c: Config, s: State, e: Step)
    requires Accounted(c, s) && NeverStuck(c, s) && RunEnabled(c, s, e) && c.workers > 0
    ensures NeverStuck(c, RunStep(c, s, e))
  {
    if e.CheckCeiling? && s.buffer.msgs == [] && FlushingBytes(s.workers) > 0 {
      BusyExists(s.workers);
    }
    if e.TryHandOff? && s.buffer.msgs == [] {
      var s' := RunStep(c, s, e);
      assert s'.workers == s.workers && s'.jobs == s.jobs;
    }
  }

  lemma WorkKeepsAwake(c: Config, s: State, w: nat, a: Act)
    requires Accounted(c, s) && NeverStuck(c, s) && WorkEnabled(s, w, a)
    ensures NeverStuck(c, WorkStep(c, s, w, a))
  {
    var s' := WorkStep(c, s, w, a);
    WorkTouches(c, s, w, a);
    assert WillWake(s') by {
      if !a.Signal? { assert !s'.workers[w].Free?; }
    }
  }

  // ----- At-least-once -----

  ghost predicate Committed(log: seq<Attempt>, id: nat) {
    exists k, i :: 0 <= k < |log| && log[k].outcome.Stored? && 0 <= i < |log[k].msgs| && log[k].msgs[i].id == id
  }

  ghost predicate PassAlive(log: seq<Attempt>, pass: nat, before: nat) {
    exists j :: 0 <= j < before && j < |log| && log[j].pass == pass && log[j].outcome.Stored?
  }

  /** Attempt k was on this message alone, it failed, and that is evidence against the row: a
      tagged rejection, or many deliveries while a sibling range of the same flush was stored. */
  ghost predicate FailedAlone(log: seq<Attempt>, k: int, id: nat) {
    && 0 <= k < |log| && |log[k].msgs| == 1 && log[k].msgs[0].id == id
    && (|| log[k].outcome.Poison?
        || (&& log[k].outcome.Transient?
            && log[k].msgs[0].deliveries >= POISON_REDELIVERY_THRESHOLD
            && PassAlive(log, log[k].pass, k)))
  }

  ghost predicate Dropped(c: Config, log: seq<Attempt>, id: nat) {
    !c.decodable(id) || exists k :: FailedAlone(log, k, id)
  }

  ghost predicate WorkerHonest(log: seq<Attempt>, w: Worker) {
    w.Busy? ==>
      && (w.done.committed > 0 ==> PassAlive(log, w.pass, |log|))
      && (forall i :: w.ack.lo <= i < w.ack.hi && i < |w.job.msgs| ==> Committed(log, w.job.msgs[i].id))
  }

  ghost predicate Delivered(c: Config, s: State) {
    && (forall id :: id in s.acked ==> Committed(s.log, id))
    && (forall id :: id in s.termed ==> Dropped(c, s.log, id))
    && (forall i :: 0 <= i < |s.workers| ==> WorkerHonest(s.log, s.workers[i]))
  }

  lemma LogGrows(c: Config, log: seq<Attempt>, a: Attempt)
    ensures forall id: nat :: Committed(log, id) ==> Committed(log + [a], id)
    ensures forall id: nat :: Dropped(c, log, id) ==> Dropped(c, log + [a], id)
    ensures forall w: Worker :: WorkerHonest(log, w) ==> WorkerHonest(log + [a], w)
  {
    var log' := log + [a];
    assert forall k :: 0 <= k < |log| ==> log'[k] == log[k];
    forall id: nat | Committed(log, id) ensures Committed(log', id) {
      var k, i :| 0 <= k < |log| && log[k].outcome.Stored? && 0 <= i < |log[k].msgs| && log[k].msgs[i].id == id;
      assert log'[k].msgs[i].id == id;
    }
    forall id: nat | Dropped(c, log, id) ensures Dropped(c, log', id) {
      if c.decodable(id) {
        var k :| FailedAlone(log, k, id);
        if log[k].outcome.Transient? { AliveGrows(log, a, log[k].pass, k); }
        assert FailedAlone(log', k, id);
      }
    }
    forall w: Worker | WorkerHonest(log, w) ensures WorkerHonest(log', w) {
      if w.Busy? && w.done.committed > 0 { AliveGrows(log, a, w.pass, |log|); }
    }
  }

  lemma AliveGrows(log: seq<Attempt>, a: Attempt, pass: nat, before: nat)
    requires PassAlive(log, pass, before) && before <= |log|
    ensures PassAlive(log + [a], pass, before) && PassAlive(log + [a], pass, before + 1)
  {
    var j :| 0 <= j < before && j < |log| && log[j].pass == pass && log[j].outcome.Stored?;
    assert (log + [a])[j] == log[j];
  }

  lemma StoredNow(log: seq<Attempt>, a: Attempt)
    requires a.outcome.Stored?
    ensures PassAlive(log + [a], a.pass, |log| + 1)
    ensures forall i :: 0 <= i < |a.msgs| ==> Committed(log + [a], a.msgs[i].id)
  {
    var log' := log + [a];
    assert log'[|log|] == a;
    forall i | 0 <= i < |a.msgs| ensures Committed(log', a.msgs[i].id) {
      assert log'[|log|].msgs[i].id == a.msgs[i].id;
    }
  }

  lemma RunKeepsDelivery(c: Config, s: State, e: Step)
    requires Delivered(c, s) && RunEnabled(c, s, e)
    ensures Delivered(c, RunStep(c, s, e))
  {
  }

  lemma WriteWholeDelivers(c: Config, s: State, w: nat, o: Outcome)
    requires Delivered(c, s) && w < |s.workers| && s.workers[w].Busy?
    requires s.workers[w].ack.lo >= s.workers[w].ack.hi
    ensures Delivered(c, WriteWhole(s, w, o))
  {
    var me := s.workers[w];
    var a := Attempt(me.pass, me.job.msgs, o);
    LogGrows(c, s.log, a);
    if o.Stored? { StoredNow(s.log, a); }
    var s' := WriteWhole(s, w, o);
    assert WorkerHonest(s'.log, me);
    assert forall i :: 0 <= i < |s.workers| && i != w ==> s'.workers[i] == s.workers[i];
  }

  lemma SingleFailure(c: Config, log: seq<Attempt>, a: Attempt, committed: nat)
    requires |a.msgs| == 1 && TermsRow(a.outcome, committed, a.msgs[0].deliveries)
    requires committed > 0 ==> PassAlive(log, a.pass, |log|)
    ensures Dropped(c, log + [a], a.msgs[0].id)
  {
    if a.outcome.Transient? { AliveGrows(log, a, a.pass, |log|); }
    assert FailedAlone(log + [a], |log|, a.msgs[0].id);
  }

  lemma WriteRangeDelivers(c: Config, s: State, w: nat, o: Outcome, termOk: bool)
    requires Delivered(c, s) && w < |s.workers| && s.workers[w].Busy? && s.workers[w].todo != []
    requires s.workers[w].ack.lo >= s.workers[w].ack.hi
    ensures Delivered(c, WriteRange(s, w, o, termOk))
  {
    var me := s.workers[w];
    var Range(lo, hi) := me.todo[0];
    var s' := WriteRange(s, w, o, termOk);
    assert WorkerHonest(s.log, me);
    assert forall i :: 0 <= i < |s.workers| && i != w ==> s'.workers[i] == s.workers[i];
    if Attempting(me) {
      var a := Attempt(me.pass, me.job.msgs[lo..hi], o);
      LogGrows(c, s.log, a);
      assert WorkerHonest(s'.log, me);
      if o.Stored? {
        StoredNow(s.log, a);
        forall i | lo <= i < hi ensures Committed(s'.log, me.job.msgs[i].id) {
          assert a.msgs[i - lo] == me.job.msgs[i];
        }
      } else if hi - lo == 1 && TermsRow(o, me.done.committed, me.job.msgs[lo].deliveries) {
        SingleFailure(c, s.log, a, me.done.committed);
      }
    }
  }

  lemma WorkKeepsDelivery(c: Config, s: State, w: nat, a: Act)
    requires Delivered(c, s) && WorkEnabled(s, w, a)
    ensures Delivered(c, WorkStep(c, s, w, a))
  {
    var me, s' := s.workers[w], WorkStep(c, s, w, a);
    if a.Write? && me.whole {
      WriteWholeDelivers(c, s, w, a.outcome);
    } else if a.Write? {
      WriteRangeDelivers(c, s, w, a.outcome, a.termOk);
    } else {
      assert WorkerHonest(s.log, me);
      assert forall i :: 0 <= i < |s.workers| && i != w ==> s'.workers[i] == s.workers[i];
    }
  }

  // ----- Every reachable state -----

  ghost predicate Inv(c: Config, s: State) {
    Accounted(c, s) && Bounded(c, s) && (c.workers > 0 ==> NeverStuck(c, s)) && Delivered(c, s)
  }

  lemma BootInv(c: Config)
    ensures Inv(c, Boot(c, [], {}, {}, 0))
  {
    BootAccounted(c, [], {}, {}, 0);
  }

  lemma StepKeepsInv(c: Config, s: State, e: Step)
    requires Inv(c, s) && Enabled(c, s, e)
    ensures Inv(c, Next(c, s, e))
  {
    if e.Work? {
      WorkKeepsAccounts(c, s, e.worker, e.act);
      WorkKeepsBound(c, s, e.worker, e.act);
      if c.workers > 0 { WorkKeepsAwake(c, s, e.worker, e.act); }
      WorkKeepsDelivery(c, s, e.worker, e.act);
    } else {
      RunKeepsAccounts(c, s, e, RunStep(c, s, e));
      RunKeepsBound(c, s, e);
      if c.workers > 0 { RunKeepsAwake(c, s, e); }
      RunKeepsDelivery(c, s, e);
    }
  }

  lemma {:induction false} RunInv(c: Config, ss: seq<State>, es: seq<Step>, i: nat)
    requires IsRun(c, ss, es) && i < |ss|
    ensures Inv(c, ss[i])
  {
    if i == 0 {
      BootInv(c);
    } else {
      RunInv(c, ss, es, i - 1);
      StepKeepsInv(c, ss[i - 1], es[i - 1]);
    }
  }

  /** inflight is exact in every reachable state, and can only be negative while a sent job
      has not been charged yet. */
  lemma ExactAccounting(c: Config, ss: seq<State>, es: seq<Step>, i: nat)
    requires IsRun(c, ss, es) && i < |ss|
    ensures var s := ss[i];
            && s.inflight + Uncharged(s) == QueuedBytes(s.jobs) + FlushingBytes(s.workers)
            && s.buffer.footprint == Resident(s.buffer.msgs)
            && (s.inflight < 0 ==> s.run.Charge?)
            && |s.jobs| <= QUEUE_PER_WORKER * c.workers && s.flushed <= c.workers
  {
    RunInv(c, ss, es, i);
  }

  ghost predicate MessagesUpTo(es: seq<Step>, most: nat) {
    forall i :: 0 <= i < |es| && es[i].Receive? ==> Footprint(es[i].msg) <= most
  }

  lemma {:induction false} SlackIsOneMessage(c: Config, ss: seq<State>, es: seq<Step>, most: nat, i: nat)
    requires IsRun(c, ss, es) && MessagesUpTo(es, most) && i < |ss|
    ensures !ss[i].cancelled ==> ss[i].slack <= most
  {
    if i > 0 {
      SlackIsOneMessage(c, ss, es, most, i - 1);
      var s, e := ss[i - 1], es[i - 1];
      if e.Work? { WorkTouches(c, s, e.worker, e.act); }
    }
  }

  /** Until shutdown is signalled, the buffer plus every unfinished job stays below the ceiling
      plus one message; at rest it is below the ceiling itself. */
  lemma MemoryBound(c: Config, ss: seq<State>, es: seq<Step>, most: nat, i: nat)
    requires IsRun(c, ss, es) && MessagesUpTo(es, most) && i < |ss|
    requires c.ceiling > 0 && !ss[i].cancelled
    ensures TotalResident(ss[i]) < c.ceiling + most
    ensures Settled(ss[i].run) ==> TotalResident(ss[i]) < c.ceiling
  {
    RunInv(c, ss, es, i);
    SlackIsOneMessage(c, ss, es, most, i);
  }

  /** At-least-once: an acked message is in a stored bundle; a terminated one was undecodable or
      failed alone with evidence; any other is still unacked and will be redelivered. */
  lemma AtLeastOnce(c: Config, ss: seq<State>, es: seq<Step>, i: nat, id: nat)
    requires IsRun(c, ss, es) && i < |ss|
    ensures id in ss[i].acked ==> Committed(ss[i].log, id)
    ensures id in ss[i].termed ==> !c.decodable(id) || exists k :: FailedAlone(ss[i].log, k, id)
  {
    RunInv(c, ss, es, i);
  }

  /** Nothing acked, terminated or stored in `s` is undone in `s'`. */
  ghost predicate Keeps(s: State, s': State) {
    s.acked <= s'.acked && s.termed <= s'.termed && s.log <= s'.log
  }

  lemma RunIsDurable(c: Config, s: State, e: Step)
    requires RunEnabled(c, s, e)
    ensures Keeps(s, RunStep(c, s, e))
  {
  }

  lemma WorkIsDurable(c: Config, s: State, w: nat, a: Act)
    requires WorkEnabled(s, w, a)
    ensures Keeps(s, WorkStep(c, s, w, a))
  {
  }

  lemma StepIsDurable(c: Config, s: State, e: Step, s': State)
    requires Enabled(c, s, e) && s' == Next(c, s, e)
    ensures Keeps(s, s')
  {
    if e.Work? { WorkIsDurable(c, s, e.worker, e.act); } else { RunIsDurable(c, s, e); }
  }

  lemma {:induction false} KeepsChain(ss: seq<State>, i: nat, j: nat)
    requires i <= j < |ss| && forall k :: 0 <= k < |ss| - 1 ==> Keeps(ss[k], ss[k + 1])
    ensures Keeps(ss[i], ss[j])
    decreases j - i
  {
    if i < j {
      KeepsChain(ss, i, j - 1);
      assert Keeps(ss[j - 1], ss[j - 1 + 1]);
    }
  }

  /** Acks, terminations and stored bundles are never undone, not even by a crash. */
  lemma Durable(c: Config, ss: seq<State>, es: seq<Step>, i: nat, j: nat)
    requires IsRun(c, ss, es) && i <= j < |ss|
    ensures Keeps(ss[i], ss[j])
  {
    forall k | 0 <= k < |ss| - 1 ensures Keeps(ss[k], ss[k + 1]) {
      StepIsDurable(c, ss[k], es[k], ss[k + 1]);
    }
    KeepsChain(ss, i, j);
  }

  /** Whenever Run waits for a flush there is a token already, or a job that will produce one. */
  lemma NoLostWakeUp(c: Config, ss: seq<State>, es: seq<Step>, i: nat)
    requires IsRun(c, ss, es) && i < |ss| && c.workers > 0 && ss[i].run.Wait?
    ensures WillWake(ss[i])
  {
    RunInv(c, ss, es, i);
  }

  // ----- The wait ends -----

  /** An upper bound on the worker steps still possible without new jobs. */
  function RangeWork(rs: seq<Range>): nat {
    if rs == [] then 0
    else (if rs[0].lo < rs[0].hi then 3 * (rs[0].hi - rs[0].lo) - 1 else 1) + RangeWork(rs[1..])
  }

  function WorkerWork(w: Worker): nat {
    match w
    case Free => 0
    case Releasing => 1
    case Busy(job, _, whole, todo, _, ack, _, _, _) =>
      (if whole then 4 * |job.msgs| + 2 else 0) + RangeWork(todo) + (if ack.lo < ack.hi then ack.hi - ack.lo else 0) + 2
  }

  function TeamWork(ws: seq<Worker>): nat {
    if ws == [] then 0 else WorkerWork(ws[0]) + TeamWork(ws[1..])
  }

  function QueueWork(js: seq<Batch>): nat {
    if js == [] then 0 else 8 + 7 * |js[0].msgs| + QueueWork(js[1..])
  }

  function WorkLeft(s: State): nat {
    TeamWork(s.workers) + QueueWork(s.jobs)
  }

  lemma {:induction false} TeamUpdate(ws: seq<Worker>, i: nat, x: Worker)
    requires i < |ws|
    ensures TeamWork(ws[i := x]) == TeamWork(ws) - WorkerWork(ws[i]) + WorkerWork(x)
  {
    if i == 0 {
      assert ws[i := x][1..] == ws[1..];
    } else {
      assert ws[i := x][1..] == ws[1..][i - 1 := x];
      TeamUpdate(ws[1..], i - 1, x);
    }
  }

  lemma RangeWorkSplits(lo: nat, hi: nat, rest: seq<Range>)
    requires hi - lo > 1
    ensures var mid := lo + (hi - lo) / 2;
            RangeWork([Range(lo, mid), Range(mid, hi)] + rest) == 3 * (hi - lo) - 2 + RangeWork(rest)
  {
    var mid := lo + (hi - lo) / 2;
    var rs := [Range(lo, mid), Range(mid, hi)] + rest;
    assert rs[1..] == [Range(mid, hi)] + rest;
    assert rs[1..][1..] == rest;
  }

  lemma AdvanceShrinks(me: Worker, o: Outcome)
    requires me.Busy? && me.todo != [] && me.ack.lo >= me.ack.hi && !me.whole
    ensures WorkerWork(Advance(me, o)) < WorkerWork(me)
  {
    var Range(lo, hi) := me.todo[0];
    var rest := me.todo[1..];
    if Attempting(me) && !o.Stored? && hi - lo > 1 {
      RangeWorkSplits(lo, hi, rest);
    } else {
      assert Advance(me, o).todo == rest;
    }
  }

  /** Every worker step uses up work, whatever the writer answers. */
  lemma WorkShrinks(c: Config, s: State, w: nat, a: Act)
    requires WorkEnabled(s, w, a)
    ensures WorkLeft(WorkStep(c, s, w, a)) < WorkLeft(s)
  {
    var me, s' := s.workers[w], WorkStep(c, s, w, a);
    WorkTouches(c, s, w, a);
    TeamUpdate(s.workers, w, s'.workers[w]);
    if a.Write? && !me.whole {
      AdvanceShrinks(me, a.outcome);
    } else if a.Write? {
      assert RangeWork([Range(0, |me.job.msgs|)]) <= 3 * |me.job.msgs| + 1;
    } else if a.Take? {
      assert RangeWork([Range(0, |s.jobs[0].msgs|)]) <= 3 * |s.jobs[0].msgs| + 1;
    }
  }

  ghost predicate WorkersRun(c: Config, ss: seq<State>, ws: seq<nat>, acts: seq<Act>) {
    && |ss| == |ws| + 1 == |acts| + 1
    && (forall i :: 0 <= i < |ws| ==>
          WorkEnabled(ss[i], ws[i], acts[i]) && ss[i + 1] == WorkStep(c, ss[i], ws[i], acts[i]))
  }

  ghost predicate WorkersDone(s: State) {
    forall w: nat, a: Act :: !WorkEnabled(s, w, a)
  }

  /** Workers come to rest only when every job has been released. */
  lemma RestMeansIdle(c: Config, s: State)
    requires Accounted(c, s) && c.workers > 0 && WorkersDone(s)
    ensures !Active(s)
  {
    forall i | 0 <= i < |s.workers| ensures s.workers[i].Free? {
      var me := s.workers[i];
      assert !WorkEnabled(s, i, Signal) && !WorkEnabled(s, i, Finish);
      assert !WorkEnabled(s, i, Write(Stored, true)) && !WorkEnabled(s, i, Ack(true));
    }
    assert !WorkEnabled(s, 0, Take);
  }

  lemma {:induction false} WorkersKeepInv(c: Config, ss: seq<State>, ws: seq<nat>, acts: seq<Act>, i: nat)
    requires WorkersRun(c, ss, ws, acts) && Inv(c, ss[0]) && i < |ss|
    ensures Inv(c, ss[i]) && ss[i].run == ss[0].run && WorkLeft(ss[i]) + i <= WorkLeft(ss[0])
  {
    if i > 0 {
      WorkersKeepInv(c, ss, ws, acts, i - 1);
      StepKeepsInv(c, ss[i - 1], Work(ws[i - 1], acts[i - 1]));
      WorkTouches(c, ss[i - 1], ws[i - 1], acts[i - 1]);
      WorkShrinks(c, ss[i - 1], ws[i - 1], acts[i - 1]);
    }
  }

  /** Run cannot wait forever while flushes finish: from any reachable waiting state the workers
      can take only finitely many steps, in any order and with any writer, and when they come to
      rest a token is there for Run to take. */
  lemma WaitEnds(c: Config, ss: seq<State>, ws: seq<nat>, acts: seq<Act>)
    requires WorkersRun(c, ss, ws, acts) && Inv(c, ss[0]) && ss[0].run.Wait? && c.workers > 0
    ensures |ws| <= WorkLeft(ss[0])
    ensures WorkersDone(ss[|ws|]) ==> RunEnabled(c, ss[|ws|], WakeUp)
  {
    WorkersKeepInv(c, ss, ws, acts, |ws|);
    if WorkersDone(ss[|ws|]) { RestMeansIdle(c, ss[|ws|]); }
  }

  /** Run has just sent its first job, of one message, and not charged it yet. */
  ghost predicate FirstSent(c: Config, s: State, m: Msg) {
    && s.run == Charge(ToCheck) && s.jobs == [Append(EMPTY, m)] && s.inflight == 0
    && |s.workers| > 0 && s.workers[0].Free?
  }

  lemma FirstJob(c: Config, m: Msg, s0: State) returns (s1: State, s2: State)
    requires c.workers > 0 && c.maxRows <= 1 && c.decodable(m.id) && s0 == Boot(c, [], {}, {}, 0)
    ensures Enabled(c, s0, Receive(m, true)) && s1 == Next(c, s0, Receive(m, true))
    ensures Enabled(c, s1, FlushReady(0)) && s2 == Next(c, s1, FlushReady(0)) && FirstSent(c, s2, m)
  {
    s1 := Next(c, s0, Receive(m, true));
    assert s1.buffer == Append(EMPTY, m) && s1.run == Ready(ToCheck);
    s2 := Next(c, s1, FlushReady(0));
  }

  lemma TakesAndStores(c: Config, m: Msg, s2: State) returns (s3: State, s4: State)
    requires FirstSent(c, s2, m)
    ensures Enabled(c, s2, Work(0, Take)) && s3 == Next(c, s2, Work(0, Take))
    ensures Enabled(c, s3, Work(0, Write(Stored, true))) && s4 == Next(c, s3, Work(0, Write(Stored, true)))
    ensures |s4.workers| > 0 && s4.workers[0].Busy? && s4.inflight == 0
    ensures var me := s4.workers[0]; me.job == Append(EMPTY, m) && me.todo == [] && me.ack == Range(0, 1)
  {
    s3 := Next(c, s2, Work(0, Take));
    s4 := Next(c, s3, Work(0, Write(Stored, true)));
  }

  lemma AcksAndFinishes(c: Config, m: Msg, s4: State) returns (s5: State, s6: State)
    requires |s4.workers| > 0 && s4.workers[0].Busy? && s4.inflight == 0
    requires var me := s4.workers[0]; me.job == Append(EMPTY, m) && me.todo == [] && me.ack == Range(0, 1)
    ensures Enabled(c, s4, Work(0, Ack(true))) && s5 == Next(c, s4, Work(0, Ack(true)))
    ensures Enabled(c, s5, Work(0, Finish)) && s6 == Next(c, s5, Work(0, Finish)) && s6.inflight < 0
  {
    s5 := Next(c, s4, Work(0, Ack(true)));
    s6 := Next(c, s5, Work(0, Finish));
  }

  /** The counter really does go negative: a worker can finish a job before Run has charged it. */
  lemma NegativeIsReachable(c: Config, m: Msg)
    returns (ss: seq<State>, es: seq<Step>)
    requires c.workers > 0 && c.maxRows <= 1 && c.decodable(m.id)
    ensures IsRun(c, ss, es) && ss[|es|].inflight < 0
  {
    var s0 := Boot(c, [], {}, {}, 0);
    var s1, s2 := FirstJob(c, m, s0);
    var s3, s4 := TakesAndStores(c, m, s2);
    var s5, s6 := AcksAndFinishes(c, m, s4);
    ss := [s0, s1, s2, s3, s4, s5, s6];
    es := [Receive(m, true), FlushReady(0), Work(0, Take), Work(0, Write(Stored, true)), Work(0, Ack(true)),
           Work(0, Finish)];
  }
}
