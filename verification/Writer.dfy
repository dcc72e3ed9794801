/** One bundle, one transaction: BEGIN, append, COMMIT on a pinned connection, retried only when a
    commit race was lost. */
module Writer {

  /** An error: whether ErrPoisonRow is in its chain, and its message text. */
  datatype Error = Error(poison: bool, text: string)

  datatype Result = Ok | Err(error: Error)

  function Lower(c: char): char {
    if 'A' <= c <= 'Z' then ((c as int) + 32) as char else c
  }

  predicate StartsFold(s: string, lower: string) {
    lower == [] || (s != [] && Lower(s[0]) == lower[0] && StartsFold(s[1..], lower[1..]))
  }

  /** Case-insensitive containment of an already lower-case text. */
  predicate ContainsFold(s: string, lower: string) {
    StartsFold(s, lower) || (s != [] && ContainsFold(s[1..], lower))
  }

  /** The transient class: never a poison row, whatever its text says. */
  predicate IsCommitConflict(e: Error) {
    !e.poison && (ContainsFold(e.text, "transactioncontext error") || ContainsFold(e.text, "conflict"))
  }

  const MAX_ATTEMPTS: nat := 3

  /** What the database answers to the statements of one attempt. ROLLBACK always works. */
  datatype Attempt = Attempt(begin: Result, append: Result, commit: Result)

  /** The result of one attempt as the source reports it: the first statement that failed. */
  function AttemptResult(a: Attempt): Result {
    if a.begin.Err? then a.begin else if a.append.Err? then a.append else a.commit
  }

  /** A pinned connection: whether a transaction is open on it, and what it has appended. */
  class Connection<Event> {
    var open: bool
    var pending: seq<Event>

    constructor ()
      ensures !open && pending == []
    {
      open, pending := false, [];
    }
  }

  class Lake<Event> {
    var bundles: seq<seq<Event>>   // one committed snapshot each

    constructor ()
      ensures bundles == []
    {
      bundles := [];
    }
  }

  /** One BEGIN/append/COMMIT attempt: adds the bundle and reports success, or adds nothing and
      reports the failure; either way no transaction stays open. */
  method WriteBundleOnce<Event>(lake: Lake<Event>, conn: Connection<Event>, events: seq<Event>, a: Attempt)
    returns (r: Result)
    requires !conn.open && conn.pending == []
    modifies lake, conn
    ensures r == AttemptResult(a)
    ensures lake.bundles == old(lake.bundles) + if r.Ok? then [events] else []
    ensures !conn.open && conn.pending == []
  {
    if a.begin.Err? {
      return a.begin;
    }
    conn.open := true;
    for i := 0 to |events|
      invariant conn.open && conn.pending == events[..i] && lake.bundles == old(lake.bundles)
    {
      conn.pending := conn.pending + [events[i]];
    }
    assert events[..|events|] == events;
    if a.append.Err? {
      conn.open, conn.pending := false, [];
      return a.append;
    }
    if a.commit.Err? {
      conn.open, conn.pending := false, [];
      return a.commit;
    }
    lake.bundles := lake.bundles + [conn.pending];
    conn.open, conn.pending := false, [];
    return Ok;
  }

  const CANCELLED := Error(false, "context canceled")

  /** The outcome of retryCatalogIf over a script of attempt results: `done` attempts have failed
      with a conflict so far; `cancelled(n)` says whether the context ended during the n-th wait. */
  function Retried(answers: nat -> Attempt, cancelled: nat -> bool, done: nat): (Result, nat)
    requires done < MAX_ATTEMPTS
    decreases MAX_ATTEMPTS - done
  {
    var r := AttemptResult(answers(done));
    if r.Ok? || !IsCommitConflict(r.error) || done + 1 >= MAX_ATTEMPTS then (r, done + 1)
    else if cancelled(done + 1) then (Err(CANCELLED), done + 1)
    else Retried(answers, cancelled, done + 1)
  }

  class BundleWriter<Event> {
    const lake: Lake<Event>
    const conns: seq<Connection<Event>>
    var next: int   // an unsigned 64-bit counter

    ghost predicate Idle()
      reads this, conns
    {
      && |conns| > 0 && 0 <= next < 0x1_0000_0000_0000_0000
      && (forall i :: 0 <= i < |conns| ==> !conns[i].open && conns[i].pending == [])
    }

    constructor (lake: Lake<Event>, conns: seq<Connection<Event>>)
      requires |conns| > 0 && forall i :: 0 <= i < |conns| ==> !conns[i].open && conns[i].pending == []
      ensures this.lake == lake && this.conns == conns && next == 0 && Idle()
    {
      this.lake, this.conns, next := lake, conns, 0;
    }

    /** Adds the bundle exactly once on success and nothing on error, for every pattern of failures,
        and leaves every connection without an open transaction. */
    method WriteBundle(events: seq<Event>, answers: nat -> Attempt, cancelled: nat -> bool)
      returns (r: Result, attempts: nat)
      requires Idle()
      modifies this, lake, conns
      ensures Idle()
      ensures events == [] ==> r == Ok && attempts == 0 && lake.bundles == old(lake.bundles) && next == old(next)
      ensures events != [] ==> (r, attempts) == Retried(answers, cancelled, 0)
      ensures events != [] ==> lake.bundles == old(lake.bundles) + if r.Ok? then [events] else []
      ensures events != [] ==> next == (old(next) + 1) % 0x1_0000_0000_0000_0000
    {
      if |events| == 0 {
        return Ok, 0;
      }
      next := (next + 1) % 0x1_0000_0000_0000_0000;
      var conn := conns[next % |conns|];
      attempts := 0;
      while true
        invariant Idle() && attempts < MAX_ATTEMPTS && lake.bundles == old(lake.bundles)
        invariant next == (old(next) + 1) % 0x1_0000_0000_0000_0000
        invariant Retried(answers, cancelled, attempts) == Retried(answers, cancelled, 0)
        decreases MAX_ATTEMPTS - attempts
      {
        r := WriteBundleOnce(lake, conn, events, answers(attempts));
        attempts := attempts + 1;
        if r.Ok? {
          return;
        }
        if !IsCommitConflict(r.error) {
          return;
        }
        if attempts >= MAX_ATTEMPTS {
          return;
        }
        if cancelled(attempts) {
          r := Err(CANCELLED);
          return;
        }
      }
    }
  }

  /** Retry policy: at most three attempts; every attempt but the last lost a commit race, and a
      poison row is never tried again. */
  lemma {:induction false} RetriesOnlyConflicts(answers: nat -> Attempt, cancelled: nat -> bool, done: nat)
    requires done < MAX_ATTEMPTS
    ensures var (r, n) := Retried(answers, cancelled, done);
            && done < n <= MAX_ATTEMPTS
            && (forall k :: done <= k < n - 1 ==>
                  AttemptResult(answers(k)).Err? && IsCommitConflict(AttemptResult(answers(k)).error))
            && (forall k :: done <= k < n && AttemptResult(answers(k)).Err? && AttemptResult(answers(k)).error.poison
                  ==> k == n - 1)
            && (r.Ok? ==> AttemptResult(answers(n - 1)).Ok?)
            && (r == AttemptResult(answers(n - 1))
                || (r == Err(CANCELLED) && cancelled(n) && IsCommitConflict(AttemptResult(answers(n - 1)).error)))
    decreases MAX_ATTEMPTS - done
  {
    var r := AttemptResult(answers(done));
    if r.Ok? || !IsCommitConflict(r.error) || done + 1 >= MAX_ATTEMPTS || cancelled(done + 1) {
    } else {
      RetriesOnlyConflicts(answers, cancelled, done + 1);
    }
  }

  /** Attempt i lost a commit race and the context survived the wait after it. */
  ghost predicate LostRace(answers: nat -> Attempt, cancelled: nat -> bool, i: nat) {
    var r := AttemptResult(answers(i));
    r.Err? && IsCommitConflict(r.error) && !cancelled(i + 1)
  }

  /** The converse: if some attempt among the first three succeeds and every earlier one only lost
      a commit race while the context stayed alive, the bundle is written. */
  lemma {:induction false} ConflictsAreRidden(answers: nat -> Attempt, cancelled: nat -> bool, done: nat, k: nat)
    requires done <= k < MAX_ATTEMPTS && AttemptResult(answers(k)).Ok?
    requires forall i :: done <= i < k ==> LostRace(answers, cancelled, i)
    ensures Retried(answers, cancelled, done) == (Ok, k + 1)
    decreases k - done
  {
    if done < k {
      assert LostRace(answers, cancelled, done);
      ConflictsAreRidden(answers, cancelled, done + 1, k);
    }
  }
}
