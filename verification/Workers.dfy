/** The workers around the queue: each takes one job at a time, sends heartbeats while it executes it, and acknowledges
  * it at the end unless its run was canceled. Any of them may crash at any time. */
module Workers {
  import opened Dag
  import opened Rfc3339
  import opened Wrappers
  import P = Projection
  import Q = Queue
  import Walk
  import Walker

  /** How an execution ends: its walk came to its end with a result, or there was none. */
  datatype Outcome = Completed(result: Walk.WalkResult) | BadPayload(text: string) | Panicked(text: string)

  /** A job being executed: when its lease was last granted, for how long, and whether heartbeats are still sent. */
  datatype Execution = Execution(runID: string, granted: nat, visibility: nat, beating: bool)
  {
    function Until(): nat {
      granted + visibility
    }
  }

  /** The tables, and what each worker is executing. */
  datatype System = System(tables: Q.Tables, running: map<string, Execution>)

  /** One atomic step: of a worker's loop, of its heartbeat loop, a crash, or a call from elsewhere. */
  datatype Move =
    | Take(worker: string, visibility: nat, picked: Option<string>)
    | Beat(worker: string, visibility: nat)
    | End(worker: string, outcome: Outcome, canceled: bool)
    | Crash(worker: string)
    | Other(call: Q.Call)

  datatype Timed = Timed(now: nat, move: Move)

  predicate Possible(s: System, m: Move) {
    match m
    case Take(w, v, picked) => w !in s.running && Q.Possible(s.tables, Q.Claim(w, v, picked))
    case Beat(w, _) => w in s.running && s.running[w].beating
    case End(w, _, _) => w in s.running
    case Crash(w) => w in s.running
    case Other(call) => (call.Enqueue? || call.Reap? || call.Cancel?) && Q.Possible(s.tables, call)
  }

  /** The queue call a step makes. Only a payload that does not decode or a panic is acknowledged as a failure: a walk
    * that comes to its end is a success, whatever its tasks returned. A canceled run is not acknowledged. */
  function CallOf(s: System, m: Move): Option<Q.Call>
    requires Possible(s, m)
  {
    match m
    case Take(w, v, picked) => Some(Q.Claim(w, v, picked))
    case Beat(w, v) => Some(Q.Heartbeat(s.running[w].runID, w, v))
    case End(w, outcome, canceled) =>
      if canceled then None
      else Some(Q.Ack(s.running[w].runID, w, outcome.Completed?, if outcome.Completed? then "" else outcome.text))
    case Crash(_) => None
    case Other(call) => Some(call)
  }

  function TablesAfter(stamp: nat -> string, s: System, t: Timed): Q.Tables
    requires Possible(s, t.move)
  {
    var call := CallOf(s, t.move);
    if call == None then s.tables
    else Q.Write(s.tables, call.value, stamp(t.now), stamp(t.now + Q.Visibility(call.value)))
  }

  function RunningAfter(s: System, t: Timed): map<string, Execution>
    requires Possible(s, t.move)
  {
    match t.move
    case Take(w, v, picked) =>
      if picked == None then s.running else s.running[w := Execution(picked.value, t.now, v, true)]
    case Beat(w, v) =>
      var e := s.running[w];
      s.running[w := if Q.Owns(s.tables, e.runID, w) then e.(granted := t.now, visibility := v) else e.(beating := false)]
    case End(w, _, _) => s.running - {w}
    case Crash(w) => s.running - {w}
    case Other(_) => s.running
  }

  function After(stamp: nat -> string, s: System, t: Timed): System
    requires Possible(s, t.move)
  {
    System(TablesAfter(stamp, s, t), RunningAfter(s, t))
  }

  predicate Settled(q: Q.Tables, r: string) {
    r in q.jobs && q.jobs[r].status.Terminal()
  }

  /** A reap finds no lease lapsed whose worker is still at a job that has not settled. */
  predicate InTime(stamp: nat -> string, s: System, t: Timed) {
    t.move == Other(Q.Reap) ==>
      forall w :: w in s.running && !Settled(s.tables, s.running[w].runID) ==>
        !TextLess(stamp(s.running[w].Until()), stamp(t.now))
  }

  predicate Legal(stamp: nat -> string, s: System, moves: seq<Timed>)
    decreases |moves|
  {
    moves != [] ==>
      Possible(s, moves[0].move) && InTime(stamp, s, moves[0]) && Legal(stamp, After(stamp, s, moves[0]), moves[1..])
  }

  function AfterAll(stamp: nat -> string, s: System, moves: seq<Timed>): System
    requires Legal(stamp, s, moves)
    decreases |moves|
  {
    if moves == [] then s else AfterAll(stamp, After(stamp, s, moves[0]), moves[1..])
  }

  // ----- One worker per job -----

  /** Who executes a job that has not settled holds its lease. */
  ghost predicate Leased(stamp: nat -> string, q: Q.Tables, running: map<string, Execution>) {
    forall w :: w in running ==>
      Settled(q, running[w].runID) || Q.HeldTill(q, running[w].runID, w, stamp(running[w].Until()))
  }

  /** No two workers execute the same job. */
  ghost predicate Alone(running: map<string, Execution>) {
    forall v, w :: v in running && w in running && running[v].runID == running[w].runID ==> v == w
  }

  ghost predicate Inv(stamp: nat -> string, s: System) {
    Leased(stamp, s.tables, s.running) && Alone(s.running)
  }

  /** A call that neither renews the lease, nor settles the job, nor finds it lapsed, leaves it as it is. */
  lemma CallKeeps(q: Q.Tables, call: Q.Call, at: string, expires: string, r: string, w: string, text: string)
    requires Q.Possible(q, call) && Q.HeldTill(q, r, w, text)
    requires call.Reap? ==> !TextLess(text, at)
    requires !Q.Renews(call, r, w)
    ensures Settled(Q.Write(q, call, at, expires), r) || Q.HeldTill(Q.Write(q, call, at, expires), r, w, text)
  {
    Q.HeldTillStep(q, call, at, expires, r, w, text);
  }

  lemma TakeKeeps(stamp: nat -> string, s: System, now: nat, w: string, v: nat, r: string)
    requires Inv(stamp, s) && Possible(s, Take(w, v, Some(r)))
    ensures Inv(stamp, After(stamp, s, Timed(now, Take(w, v, Some(r)))))
  {
    var call := Q.Claim(w, v, Some(r));
    var q := Q.Write(s.tables, call, stamp(now), stamp(now + v));
    var e := Execution(r, now, v, true);
    Q.ClaimHolds(s.tables, w, v, r, stamp(now), stamp(now + v));
    forall u | u in s.running
      ensures s.running[u].runID != r
      ensures Settled(q, s.running[u].runID) || Q.HeldTill(q, s.running[u].runID, u, stamp(s.running[u].Until()))
    {
      if Settled(s.tables, s.running[u].runID) {
        Q.SettledStays(s.tables, call, stamp(now), stamp(now + v), s.running[u].runID);
      } else {
        CallKeeps(s.tables, call, stamp(now), stamp(now + v), s.running[u].runID, u, stamp(s.running[u].Until()));
      }
    }
    OneMore(stamp, q, s.running, w, e);
  }

  lemma OneMore(stamp: nat -> string, q: Q.Tables, running: map<string, Execution>, w: string, e: Execution)
    requires Leased(stamp, q, running) && Alone(running) && forall u :: u in running ==> running[u].runID != e.runID
    requires Q.HeldTill(q, e.runID, w, stamp(e.Until()))
    ensures Leased(stamp, q, running[w := e]) && Alone(running[w := e])
  {
  }

  lemma BeatRow(q: Q.Tables, r: string, w: string, at: string, expires: string, other: string, u: string, text: string)
    requires other != r
    ensures Settled(q, other) ==> Settled(Q.HeartbeatRow(q, r, w, at, expires), other)
    ensures Q.HeldTill(q, other, u, text) ==> Q.HeldTill(Q.HeartbeatRow(q, r, w, at, expires), other, u, text)
  {
  }

  /** The worker's own row: renewed if it still owns it, and otherwise as it was. */
  lemma OwnBeat(q: Q.Tables, r: string, w: string, at: string, expires: string, text: string)
    ensures Settled(q, r) ==> Settled(Q.HeartbeatRow(q, r, w, at, expires), r) && !Q.Owns(q, r, w)
    ensures Q.HeldTill(q, r, w, text) ==> Q.HeldTill(Q.HeartbeatRow(q, r, w, at, expires), r, w, expires) && Q.Owns(q, r, w)
  {
  }

  /** Every other worker's row. */
  lemma OthersBeat(stamp: nat -> string, tables: Q.Tables, running: map<string, Execution>, w: string, at: string, expires: string,
                   q: Q.Tables, u: string)
    requires Leased(stamp, tables, running) && Alone(running) && w in running && u in running && u != w
    requires q == Q.HeartbeatRow(tables, running[w].runID, w, at, expires)
    ensures Settled(q, running[u].runID) || Q.HeldTill(q, running[u].runID, u, stamp(running[u].Until()))
  {
    assert running[u].runID != running[w].runID;
    BeatRow(tables, running[w].runID, w, at, expires, running[u].runID, u, stamp(running[u].Until()));
  }

  lemma BeatRunning(stamp: nat -> string, q: Q.Tables, running: map<string, Execution>, w: string, now: nat, v: nat)
    requires Alone(running) && w in running
    requires forall u :: u in running && u != w ==>
               Settled(q, running[u].runID) || Q.HeldTill(q, running[u].runID, u, stamp(running[u].Until()))
    requires Settled(q, running[w].runID) || Q.HeldTill(q, running[w].runID, w, stamp(now + v))
    ensures var e := running[w];
            && Leased(stamp, q, running[w := e.(granted := now, visibility := v)])
            && Alone(running[w := e.(granted := now, visibility := v)])
            && (Settled(q, e.runID) ==> Leased(stamp, q, running[w := e.(beating := false)]))
            && Alone(running[w := e.(beating := false)])
  {
  }

  lemma BeatAfter(stamp: nat -> string, s: System, now: nat, w: string, v: nat)
    requires Possible(s, Beat(w, v))
    ensures var r, e := s.running[w].runID, s.running[w];
            After(stamp, s, Timed(now, Beat(w, v))) ==
              System(Q.HeartbeatRow(s.tables, r, w, stamp(now), stamp(now + v)),
                     s.running[w := if Q.Owns(s.tables, r, w) then e.(granted := now, visibility := v) else e.(beating := false)])
  {
  }

  /** The same over fixed tables `q` after the heartbeat. */
  lemma BeatLeaves(stamp: nat -> string, tables: Q.Tables, running: map<string, Execution>, w: string, now: nat, v: nat, q: Q.Tables)
    requires Leased(stamp, tables, running) && Alone(running) && w in running
    requires q == Q.HeartbeatRow(tables, running[w].runID, w, stamp(now), stamp(now + v))
    ensures forall u :: u in running && u != w ==>
              Settled(q, running[u].runID) || Q.HeldTill(q, running[u].runID, u, stamp(running[u].Until()))
    ensures Settled(q, running[w].runID) || Q.HeldTill(q, running[w].runID, w, stamp(now + v))
    ensures !Q.Owns(tables, running[w].runID, w) ==> Settled(q, running[w].runID)
  {
    OwnBeat(tables, running[w].runID, w, stamp(now), stamp(now + v), stamp(running[w].Until()));
    forall u | u in running && u != w
      ensures Settled(q, running[u].runID) || Q.HeldTill(q, running[u].runID, u, stamp(running[u].Until()))
    {
      OthersBeat(stamp, tables, running, w, stamp(now), stamp(now + v), q, u);
    }
  }

  lemma BeatKeeps(stamp: nat -> string, s: System, now: nat, w: string, v: nat)
    requires Inv(stamp, s) && Possible(s, Beat(w, v))
    ensures Inv(stamp, After(stamp, s, Timed(now, Beat(w, v))))
  {
    var q := Q.HeartbeatRow(s.tables, s.running[w].runID, w, stamp(now), stamp(now + v));
    BeatAfter(stamp, s, now, w, v);
    BeatLeaves(stamp, s.tables, s.running, w, now, v, q);
    BeatRunning(stamp, q, s.running, w, now, v);
  }

  lemma AckRowKeeps(q: Q.Tables, r: string, w: string, success: bool, text: string, at: string,
                                       other: string, u: string, expires: string)
    requires other != r
    ensures Settled(q, other) ==> Settled(Q.AckRow(q, r, w, success, text, at), other)
    ensures Q.HeldTill(q, other, u, expires) ==> Q.HeldTill(Q.AckRow(q, r, w, success, text, at), other, u, expires)
  {
  }

  lemma EndKeeps(stamp: nat -> string, s: System, now: nat, w: string, outcome: Outcome, canceled: bool)
    requires Inv(stamp, s) && Possible(s, End(w, outcome, canceled))
    ensures Inv(stamp, After(stamp, s, Timed(now, End(w, outcome, canceled))))
  {
    var r := s.running[w].runID;
    var text := if outcome.Completed? then "" else outcome.text;
    var q := Q.AckRow(s.tables, r, w, outcome.Completed?, text, stamp(now));
    forall u | u in s.running && u != w
      ensures Settled(q, s.running[u].runID) || Q.HeldTill(q, s.running[u].runID, u, stamp(s.running[u].Until()))
    {
      assert s.running[u].runID != r;
      AckRowKeeps(s.tables, r, w, outcome.Completed?, text, stamp(now), s.running[u].runID, u, stamp(s.running[u].Until()));
    }
  }

  lemma OtherKeeps(stamp: nat -> string, s: System, now: nat, call: Q.Call)
    requires Inv(stamp, s) && Possible(s, Other(call)) && InTime(stamp, s, Timed(now, Other(call)))
    ensures Inv(stamp, After(stamp, s, Timed(now, Other(call))))
  {
    var at, expires := stamp(now), stamp(now + Q.Visibility(call));
    forall u | u in s.running
      ensures Settled(Q.Write(s.tables, call, at, expires), s.running[u].runID)
           || Q.HeldTill(Q.Write(s.tables, call, at, expires), s.running[u].runID, u, stamp(s.running[u].Until()))
    {
      if Settled(s.tables, s.running[u].runID) {
        Q.SettledStays(s.tables, call, at, expires, s.running[u].runID);
      } else {
        CallKeeps(s.tables, call, at, expires, s.running[u].runID, u, stamp(s.running[u].Until()));
      }
    }
  }

  lemma MoveKeeps(stamp: nat -> string, s: System, t: Timed)
    requires Inv(stamp, s) && Possible(s, t.move) && InTime(stamp, s, t)
    ensures Inv(stamp, After(stamp, s, t))
  {
    match t.move {
      case Take(w, v, picked) => if picked != None { TakeKeeps(stamp, s, t.now, w, v, picked.value); }
      case Beat(w, v) => BeatKeeps(stamp, s, t.now, w, v);
      case End(w, outcome, canceled) => EndKeeps(stamp, s, t.now, w, outcome, canceled);
      case Crash(w) =>
      case Other(call) => OtherKeeps(stamp, s, t.now, call);
    }
  }

  /** Over every run of any number of workers, crashes included, in which no reap finds a live lease lapsed: no two
    * workers ever execute the same job, and who executes a job that has not settled owns it. */
  lemma {:induction false} OneWorkerPerJob(stamp: nat -> string, s: System, moves: seq<Timed>)
    requires Inv(stamp, s) && Legal(stamp, s, moves)
    ensures Inv(stamp, AfterAll(stamp, s, moves))
    decreases |moves|
  {
    if moves != [] {
      MoveKeeps(stamp, s, moves[0]);
      OneWorkerPerJob(stamp, After(stamp, s, moves[0]), moves[1..]);
    }
  }

  // ----- What the registry shows -----

  /** The registry shows the job that an executing worker owns as its current run. */
  ghost predicate Shown(q: Q.Tables, running: map<string, Execution>) {
    forall w :: w in running && Q.Owns(q, running[w].runID, w) ==>
      w in q.workers && q.workers[w].currentRun == running[w].runID
  }

  /** A call by another worker, or by none, leaves a worker's row as it is, and gives it no job. */
  lemma RowOfOthers(q: Q.Tables, call: Q.Call, at: string, expires: string, r: string, w: string)
    requires Q.Possible(q, call)
    requires (call.Claim? || call.Ack? || call.Heartbeat?) ==> call.worker != w
    ensures var t := Q.Write(q, call, at, expires);
            && (Q.Owns(t, r, w) ==> Q.Owns(q, r, w))
            && (w in q.workers ==> w in t.workers && t.workers[w] == q.workers[w])
  {
  }

  lemma BeatShows(q: Q.Tables, r: string, w: string, at: string, expires: string)
    ensures var t := Q.HeartbeatRow(q, r, w, at, expires);
            && (forall other, u :: Q.Owns(t, other, u) <==> Q.Owns(q, other, u))
            && t.workers.Keys == q.workers.Keys
            && forall u :: u in q.workers ==> t.workers[u].currentRun == q.workers[u].currentRun
  {
  }

  lemma TakeShows(stamp: nat -> string, s: System, now: nat, w: string, v: nat, r: string)
    requires Shown(s.tables, s.running) && Possible(s, Take(w, v, Some(r)))
    ensures var t := After(stamp, s, Timed(now, Take(w, v, Some(r)))); Shown(t.tables, t.running)
  {
    var call := Q.Claim(w, v, Some(r));
    var t := After(stamp, s, Timed(now, Take(w, v, Some(r))));
    Q.ClaimWrites(s.tables, w, v, r, stamp(now), stamp(now + v));
    forall u | u in t.running && Q.Owns(t.tables, t.running[u].runID, u)
      ensures u in t.tables.workers && t.tables.workers[u].currentRun == t.running[u].runID
    {
      if u != w { RowOfOthers(s.tables, call, stamp(now), stamp(now + v), s.running[u].runID, u); }
    }
  }

  lemma EndShows(stamp: nat -> string, s: System, now: nat, w: string, outcome: Outcome, canceled: bool)
    requires Shown(s.tables, s.running) && Possible(s, End(w, outcome, canceled))
    ensures var t := After(stamp, s, Timed(now, End(w, outcome, canceled))); Shown(t.tables, t.running)
  {
    var r := s.running[w].runID;
    var text := if outcome.Completed? then "" else outcome.text;
    forall u | u in s.running && u != w
      ensures var q := Q.AckRow(s.tables, r, w, outcome.Completed?, text, stamp(now));
              Q.Owns(q, s.running[u].runID, u) ==> u in q.workers && q.workers[u].currentRun == s.running[u].runID
    {
    }
  }

  lemma OtherShows(stamp: nat -> string, s: System, now: nat, call: Q.Call)
    requires Shown(s.tables, s.running) && Possible(s, Other(call))
    ensures var t := After(stamp, s, Timed(now, Other(call))); Shown(t.tables, t.running)
  {
    var q := Q.Write(s.tables, call, stamp(now), stamp(now + Q.Visibility(call)));
    forall u | u in s.running
      ensures Q.Owns(q, s.running[u].runID, u) ==> u in q.workers && q.workers[u].currentRun == s.running[u].runID
    {
      RowOfOthers(s.tables, call, stamp(now), stamp(now + Q.Visibility(call)), s.running[u].runID, u);
    }
  }

  lemma MoveShows(stamp: nat -> string, s: System, t: Timed)
    requires Shown(s.tables, s.running) && Possible(s, t.move)
    ensures Shown(After(stamp, s, t).tables, After(stamp, s, t).running)
  {
    match t.move {
      case Take(w, v, picked) => if picked != None { TakeShows(stamp, s, t.now, w, v, picked.value); }
      case Beat(w, v) => BeatShows(s.tables, s.running[w].runID, w, stamp(t.now), stamp(t.now + v));
      case End(w, outcome, canceled) => EndShows(stamp, s, t.now, w, outcome, canceled);
      case Crash(w) =>
      case Other(call) => OtherShows(stamp, s, t.now, call);
    }
  }

  /** Over every run, in time or not: a worker that executes a job it owns is registered with it as its current run. */
  lemma {:induction false} CurrentRunIsShown(stamp: nat -> string, s: System, moves: seq<Timed>)
    requires Shown(s.tables, s.running) && Legal(stamp, s, moves)
    ensures Shown(AfterAll(stamp, s, moves).tables, AfterAll(stamp, s, moves).running)
    decreases |moves|
  {
    if moves != [] {
      MoveShows(stamp, s, moves[0]);
      CurrentRunIsShown(stamp, After(stamp, s, moves[0]), moves[1..]);
    }
  }

  /** So a heartbeat is refused only once the run was canceled or the job otherwise settled. */
  lemma RefusedOnlyWhenSettled(stamp: nat -> string, s: System, moves: seq<Timed>, w: string)
    requires s.running == map[] && Legal(stamp, s, moves)
    requires w in AfterAll(stamp, s, moves).running
    ensures var t := AfterAll(stamp, s, moves); Q.Owns(t.tables, t.running[w].runID, w) || Settled(t.tables, t.running[w].runID)
  {
    OneWorkerPerJob(stamp, s, moves);
  }

  /** And it takes no less: once a reap finds a live lease lapsed, the next claim of the job, by any worker that is not
    * executing one, has two workers executing it. */
  lemma LapsedIsShared(stamp: nat -> string, s: System, now: nat, w: string, taker: string, v: nat, later: nat)
    requires Inv(stamp, s) && w in s.running && !Settled(s.tables, s.running[w].runID)
    requires TextLess(stamp(s.running[w].Until()), stamp(now))
    requires Possible(After(stamp, s, Timed(now, Other(Q.Reap))), Take(taker, v, Some(s.running[w].runID)))
    ensures Q.IsPending(After(stamp, s, Timed(now, Other(Q.Reap))).tables, s.running[w].runID)
    ensures !Alone(After(stamp, After(stamp, s, Timed(now, Other(Q.Reap))),
                         Timed(later, Take(taker, v, Some(s.running[w].runID)))).running)
  {
    var r := s.running[w].runID;
    Q.ReapsWhenLess(s.tables, r, w, stamp(s.running[w].Until()), stamp(now));
    var t := After(stamp, s, Timed(now, Other(Q.Reap)));
    var u := RunningAfter(t, Timed(later, Take(taker, v, Some(r))));
    assert taker != w && u[taker].runID == u[w].runID == r;
  }

  // ----- Leases that last -----

  /** A reap at `now` finds a lease of `v`, granted at `g`, lapsed. */
  predicate Lapses(stamp: nat -> string, g: nat, v: nat, now: nat) {
    TextLess(stamp(g + v), stamp(now))
  }

  /** No reap within `gap` of a grant finds the lease lapsed, whenever it was granted. */
  ghost predicate Lasts(stamp: nat -> string, gap: nat, v: nat) {
    forall g: nat, now: nat :: g <= now <= g + gap && FourDigitYear(g + v) ==> !Lapses(stamp, g, v, now)
  }

  lemma MarginLasts(stamp: nat -> string, gap: nat, v: nat)
    requires Q.SparesEarly(stamp) && gap + NANOS <= v
    ensures Lasts(stamp, gap, v)
  {
    forall g: nat, now: nat | g <= now <= g + gap && FourDigitYear(g + v) ensures !Lapses(stamp, g, v, now) {
      assert now + NANOS <= g + v;
    }
  }

  /** A grant and a time within `gap` of it that falls on a whole second, the same as the expiry's. */
  lemma TightGrant(gap: nat, v: nat) returns (g: nat, now: nat)
    requires v > 0 && v < gap + NANOS
    ensures g <= now <= g + gap && now % NANOS == 0
    ensures now < g + v <= v + NANOS && now / NANOS == (g + v) / NANOS
  {
    var d := if gap < v then gap else v - 1;
    var k := (d + NANOS - 1) / NANOS;
    now := k * NANOS;
    g := now - d;
    SameSecond(k, v - d);
  }

  lemma SameSecond(k: nat, r: nat)
    requires r < NANOS
    ensures (k * NANOS + r) / NANOS == k
    ensures (k * NANOS) / NANOS == k && (k * NANOS) % NANOS == 0
  {
  }

  /** Without a second to spare there is a grant that a reap finds lapsed too soon. */
  lemma TooTight(gap: nat, v: nat) returns (g: nat, now: nat)
    requires v > 0 && v < gap + NANOS && FourDigitYear(v + NANOS)
    ensures g <= now <= g + gap && FourDigitYear(g + v) && Lapses(Format, g, v, now)
  {
    g, now := TightGrant(gap, v);
    WholeSecondLast(now, g + v);
    EarlierYear(g + v, v + NANOS);
  }

  /** Leases of `v` last from one heartbeat to the next, `gap` later at most, exactly when they are a second longer. */
  lemma CadenceIff(gap: nat, v: nat)
    requires v > 0 && FourDigitYear(v + NANOS)
    ensures Lasts(Format, gap, v) <==> gap + NANOS <= v
  {
    if gap + NANOS <= v {
      Q.FormatSparesEarly();
      MarginLasts(Format, gap, v);
    } else {
      var g, now := TooTight(gap, v);
    }
  }

  /** A heartbeat every third of the visibility, each up to `late` late, is in time exactly from a visibility of one and
    * a half times a second and the lateness together; the third is cut to whole nanoseconds. */
  lemma ThirdIff(v: nat, late: nat)
    requires v > 0 && FourDigitYear(v + NANOS)
    ensures Lasts(Format, v / 3 + late, v) <==> 2 * v + 2 >= 3 * (NANOS + late)
  {
    CadenceIff(v / 3 + late, v);
  }

  /** While every lease is one of `v`, granted at most `gap` ago, reaps are in time if such leases last. */
  lemma PunctualIsInTime(stamp: nat -> string, s: System, t: Timed, gap: nat, v: nat)
    requires Lasts(stamp, gap, v)
    requires forall w :: w in s.running ==>
               && s.running[w].visibility == v
               && s.running[w].granted <= t.now <= s.running[w].granted + gap
               && FourDigitYear(s.running[w].Until())
    ensures InTime(stamp, s, t)
  {
    forall w | w in s.running ensures !TextLess(stamp(s.running[w].Until()), stamp(t.now)) {
      assert !Lapses(stamp, s.running[w].granted, v, t.now);
    }
  }

  /** A second to spare is enough. */
  lemma SecondIsInTime(stamp: nat -> string, s: System, t: Timed)
    requires Q.SparesEarly(stamp)
    requires forall w :: w in s.running && !Settled(s.tables, s.running[w].runID) ==>
               t.now + NANOS <= s.running[w].Until() && FourDigitYear(s.running[w].Until())
    ensures InTime(stamp, s, t)
  {
  }

  /** By the clock: a reap is in time exactly when none of these expiries is one it frees. */
  lemma InTimeIff(s: System, now: nat)
    requires FourDigitYear(now) && forall w :: w in s.running ==> FourDigitYear(s.running[w].Until())
    ensures InTime(Format, s, Timed(now, Other(Q.Reap))) <==>
              forall w :: w in s.running && !Settled(s.tables, s.running[w].runID) ==> !Q.FreedAt(s.running[w].Until(), now)
  {
    forall w | w in s.running
      ensures TextLess(Format(s.running[w].Until()), Format(now)) <==> Q.FreedAt(s.running[w].Until(), now)
    {
      Q.LessIffFreed(s.running[w].Until(), now);
    }
  }

  /** A heartbeat that is refused is the last of its execution, and changes nothing else; one that is not renews the
    * lease. */
  lemma BeatIs(stamp: nat -> string, s: System, now: nat, w: string, v: nat)
    requires Possible(s, Beat(w, v))
    ensures var e, t := s.running[w], After(stamp, s, Timed(now, Beat(w, v)));
            if Q.Owns(s.tables, e.runID, w) then
              && t.running == s.running[w := Execution(e.runID, now, v, e.beating)]
              && Q.HeldTill(t.tables, e.runID, w, stamp(now + v))
            else
              && t == System(s.tables, s.running[w := Execution(e.runID, e.granted, e.visibility, false)])
              && forall v' :: !Possible(t, Beat(w, v'))
  {
  }

  // ----- How an execution settles its job -----

  /** The event a walk that came to its end is logged with. */
  predicate ReportsResult(e: P.Event, r: string, result: Walk.WalkResult) {
    e.entryType.ScheduleComplete? && e.runID == r && e.success == Some(result == Walk.Success)
  }

  /** Done or failed by its outcome alone while the worker owns the job, and not at all when its run was canceled or
    * someone else owns it. */
  lemma EndSettles(stamp: nat -> string, s: System, now: nat, w: string, outcome: Outcome, canceled: bool)
    requires Possible(s, End(w, outcome, canceled))
    ensures var r, t := s.running[w].runID, After(stamp, s, Timed(now, End(w, outcome, canceled)));
            && w !in t.running
            && (canceled || !Q.Owns(s.tables, r, w) ==> t.tables == s.tables)
            && (!canceled && Q.Owns(s.tables, r, w) ==>
                  && r in t.tables.jobs
                  && t.tables.jobs[r].completedAt == Some(stamp(now))
                  && (t.tables.jobs[r].status == Q.Done <==> outcome.Completed?)
                  && (t.tables.jobs[r].status == Q.Failed <==> !outcome.Completed?)
                  && t.tables.jobs[r].lastError == (if outcome.Completed? then "" else outcome.text)
                  && (w in s.tables.workers ==> w in t.tables.workers && t.tables.workers[w].currentRun == ""))
  {
  }

  lemma RunSaysResult(db: P.Tables, e: P.Event, r: string, result: Walk.WalkResult)
    requires ReportsResult(e, r, result) && r != "" && r in db.runs && db.runs[r].status != P.Canceled
    ensures r in P.Apply(db, e).runs
    ensures P.Apply(db, e).runs[r].status == if result == Walk.Success then P.Succeeded else P.Failed
  {
  }

  /** A job whose walk came to its end is done, whatever the tasks returned; the run row says what they returned. So the
    * job says the same as the run exactly when every task ran and returned no error. */
  lemma DoneWhateverReturned(stamp: nat -> string, s: System, now: nat, w: string, p: Plan, errs: Errors, result: Walk.WalkResult,
                             ran: set<string>, skipped: map<string, string>, db: P.Tables, e: P.Event)
    requires Possible(s, End(w, Completed(result), false)) && Q.Owns(s.tables, s.running[w].runID, w)
    requires Walker.Reports(p, errs, result, ran, skipped) && ReportsResult(e, s.running[w].runID, result)
    requires s.running[w].runID != "" && s.running[w].runID in db.runs && db.runs[s.running[w].runID].status != P.Canceled
    ensures var r := s.running[w].runID;
            var job, run := After(stamp, s, Timed(now, End(w, Completed(result), false))).tables.jobs, P.Apply(db, e).runs;
            && r in job && job[r].status == Q.Done
            && r in run && (run[r].status == P.Succeeded || run[r].status == P.Failed)
            && (run[r].status == P.Succeeded <==> result == Walk.Success)
            && (run[r].status == P.Succeeded <==> forall n :: n in p.deps ==> Meaning(p, errs, n) == Ran(false))
  {
    EndSettles(stamp, s, now, w, Completed(result), false);
    RunSaysResult(db, e, s.running[w].runID, result);
  }
}
