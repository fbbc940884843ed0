/** The writers through which concurrent tasks stream to stdout: the first holds a shared lock and writes through,
  * the others buffer and write their whole block once they get the lock. */
module Streaming {
  import opened Wrappers

  /** A writer in use; one blocked on the lock in Close; one that got it; one that wrote its buffer; one closed. */
  datatype Phase = Open | Blocked | Holding | Flushed | Closed

  datatype Writer = Writer(leader: bool, buf: string, phase: Phase)
  {
    predicate HoldsLock() {
      (leader && phase == Open) || phase == Holding || phase == Flushed
    }
  }

  /** The lock with its holder, stdout, and the writers; as history, what each writer was given, and the writers in
    * the order in which they let go of the lock for good. */
  datatype State = State(lock: Option<nat>, stdout: string, writers: map<nat, Writer>,
                         given: map<nat, string>, order: seq<nat>)

  /** The points at which another goroutine may run in between. A follower's Close is four of them. */
  datatype Step =
    | New(id: nat)
    | Write(id: nat, text: string)
    | Close(id: nat)
    | Acquire(id: nat)
    | Flush(id: nat)
    | Release(id: nat)

  const START := State(None, "", map[], map[], [])

  /** No write comes after the close, and no one gets past a lock that is held. */
  predicate Enabled(s: State, step: Step) {
    match step
    case New(id) => id !in s.writers
    case Write(id, _) => id in s.writers && s.writers[id].phase == Open
    case Close(id) => id in s.writers
    case Acquire(id) => id in s.writers && s.writers[id].phase == Blocked && s.lock == None
    case Flush(id) => id in s.writers && s.writers[id].phase == Holding
    case Release(id) => id in s.writers && s.writers[id].phase == Flushed
  }

  function To(s: State, id: nat, phase: Phase): map<nat, Writer>
    requires id in s.writers
  {
    s.writers[id := s.writers[id].(phase := phase)]
  }

  function After(s: State, step: Step): State
    requires Enabled(s, step)
  {
    match step
    case New(id) =>
      s.(lock := if s.lock == None then Some(id) else s.lock,
         writers := s.writers[id := Writer(s.lock == None, "", Open)], given := s.given[id := ""])
    case Write(id, text) =>
      var given := s.given[id := (if id in s.given then s.given[id] else "") + text];
      if s.writers[id].leader then s.(stdout := s.stdout + text, given := given)
      else s.(writers := s.writers[id := s.writers[id].(buf := s.writers[id].buf + text)], given := given)
    case Close(id) =>
      if s.writers[id].phase != Open then s
      else if s.writers[id].leader then s.(lock := None, writers := To(s, id, Closed), order := s.order + [id])
      else s.(writers := To(s, id, Blocked))
    case Acquire(id) => s.(lock := Some(id), writers := To(s, id, Holding))
    case Flush(id) => s.(stdout := s.stdout + s.writers[id].buf, writers := To(s, id, Flushed))
    case Release(id) => s.(lock := None, writers := To(s, id, Closed), order := s.order + [id])
  }

  predicate Legal(s: State, steps: seq<Step>)
    decreases |steps|
  {
    steps != [] ==> Enabled(s, steps[0]) && Legal(After(s, steps[0]), steps[1..])
  }

  function AfterAll(s: State, steps: seq<Step>): State
    requires Legal(s, steps)
    decreases |steps|
  {
    if steps == [] then s else AfterAll(After(s, steps[0]), steps[1..])
  }

  // ----- Blocks -----

  /** The blocks of `order`, each whole and in one piece. */
  function Blocks(order: seq<nat>, given: map<nat, string>): string {
    if order == [] then ""
    else
      var last := |order| - 1;
      Blocks(order[..last], given) + if order[last] in given then given[order[last]] else ""
  }

  /** What the holder of the lock has written so far. */
  function Current(s: State): string {
    if s.lock == None || s.lock.value !in s.writers || s.lock.value !in s.given then ""
    else if s.writers[s.lock.value].phase == Holding then ""
    else s.given[s.lock.value]
  }

  ghost predicate WriterShape(w: Writer, given: string) {
    && (w.leader ==> w.phase == Open || w.phase == Closed)
    && (!w.leader ==> w.buf == given)
  }

  ghost predicate Shapes(s: State) {
    s.given.Keys == s.writers.Keys && forall id :: id in s.writers ==> WriterShape(s.writers[id], s.given[id])
  }

  ghost predicate LockHeld(s: State) {
    forall id :: s.lock == Some(id) <==> id in s.writers && s.writers[id].HoldsLock()
  }

  ghost predicate Order(s: State) {
    && NoRepeats(s.order)
    && forall id :: id in s.order <==> id in s.writers && s.writers[id].phase == Closed
  }

  /** Stdout is whole blocks, one for each closed writer, and then what the holder has written of its own. */
  ghost predicate WholeBlocks(s: State) {
    s.stdout == Blocks(s.order, s.given) + Current(s)
  }

  ghost predicate Inv(s: State) {
    Shapes(s) && LockHeld(s) && Order(s) && WholeBlocks(s)
  }

  lemma {:induction false} BlocksSame(order: seq<nat>, a: map<nat, string>, b: map<nat, string>)
    requires forall id :: id in order ==> id in a && id in b && a[id] == b[id]
    ensures Blocks(order, a) == Blocks(order, b)
    decreases |order|
  {
    if order != [] {
      var last := |order| - 1;
      assert order == order[..last] + [order[last]];
      BlocksSame(order[..last], a, b);
    }
  }

  lemma BlocksOfMore(order: seq<nat>, id: nat, given: map<nat, string>)
    requires id in given
    ensures Blocks(order + [id], given) == Blocks(order, given) + given[id]
  {
    assert (order + [id])[..|order|] == order;
  }

  // ----- Every step keeps the blocks whole -----

  lemma KeepsShapes(s: State, step: Step)
    requires Shapes(s) && Enabled(s, step)
    ensures Shapes(After(s, step))
  {
  }

  lemma KeepsLock(s: State, step: Step)
    requires Shapes(s) && LockHeld(s) && Enabled(s, step)
    ensures LockHeld(After(s, step))
  {
    if step.id in s.writers {
      assert WriterShape(s.writers[step.id], s.given[step.id]);
      assert s.lock == Some(step.id) <==> s.writers[step.id].HoldsLock();
    }
  }

  lemma KeepsOrder(s: State, step: Step)
    requires Order(s) && Enabled(s, step)
    ensures Order(After(s, step))
  {
    if step.id in s.writers { assert step.id in s.order <==> s.writers[step.id].phase == Closed; }
  }

  lemma WriteKeepsBlocks(s: State, id: nat, text: string)
    requires Inv(s) && Enabled(s, Write(id, text))
    ensures WholeBlocks(After(s, Write(id, text)))
  {
    var t := After(s, Write(id, text));
    BlocksSame(s.order, s.given, t.given);
    if s.writers[id].leader {
      assert s.lock == Some(id);
      assert t.stdout == Blocks(s.order, s.given) + (s.given[id] + text);
    }
  }

  lemma NewKeepsBlocks(s: State, id: nat)
    requires Inv(s) && Enabled(s, New(id))
    ensures WholeBlocks(After(s, New(id)))
  {
    BlocksSame(s.order, s.given, After(s, New(id)).given);
  }

  /** The holder of the lock, its block written, lets go. */
  lemma BlockDone(s: State, t: State, id: nat)
    requires WholeBlocks(s) && id in s.given && Current(s) == s.given[id]
    requires t.order == s.order + [id] && t.given == s.given && t.stdout == s.stdout && t.lock == None
    ensures WholeBlocks(t)
  {
    BlocksOfMore(s.order, id, s.given);
    assert Current(t) == "";
  }

  lemma LeaderCloses(s: State, id: nat)
    requires Shapes(s) && LockHeld(s) && WholeBlocks(s) && id in s.writers && s.writers[id].phase == Open && s.writers[id].leader
    ensures WholeBlocks(After(s, Close(id)))
  {
    assert s.writers[id].HoldsLock() && s.lock == Some(id);
    BlockDone(s, After(s, Close(id)), id);
  }

  lemma FollowerBlocks(s: State, id: nat)
    requires Shapes(s) && LockHeld(s) && WholeBlocks(s) && id in s.writers && !(s.writers[id].phase == Open && s.writers[id].leader)
    ensures WholeBlocks(After(s, Close(id)))
  {
    if s.writers[id].phase == Open { assert !s.writers[id].HoldsLock(); }
  }

  lemma CloseKeepsBlocks(s: State, id: nat)
    requires Inv(s) && Enabled(s, Close(id))
    ensures WholeBlocks(After(s, Close(id)))
  {
    if s.writers[id].phase == Open && s.writers[id].leader { LeaderCloses(s, id); } else { FollowerBlocks(s, id); }
  }

  lemma FlushKeepsBlocks(s: State, id: nat)
    requires Inv(s) && Enabled(s, Flush(id))
    ensures WholeBlocks(After(s, Flush(id)))
  {
    assert s.lock == Some(id);
  }

  lemma ReleaseKeepsBlocks(s: State, id: nat)
    requires Inv(s) && Enabled(s, Release(id))
    ensures WholeBlocks(After(s, Release(id)))
  {
    assert s.lock == Some(id);
    BlockDone(s, After(s, Release(id)), id);
  }

  lemma KeepsBlocks(s: State, step: Step)
    requires Inv(s) && Enabled(s, step)
    ensures WholeBlocks(After(s, step))
  {
    match step {
      case New(id) => NewKeepsBlocks(s, id);
      case Write(id, text) => WriteKeepsBlocks(s, id, text);
      case Close(id) => CloseKeepsBlocks(s, id);
      case Acquire(id) =>
      case Flush(id) => FlushKeepsBlocks(s, id);
      case Release(id) => ReleaseKeepsBlocks(s, id);
    }
  }

  lemma StepKeeps(s: State, step: Step)
    requires Inv(s) && Enabled(s, step)
    ensures Inv(After(s, step))
  {
    KeepsShapes(s, step);
    KeepsLock(s, step);
    KeepsOrder(s, step);
    KeepsBlocks(s, step);
  }

  /** Any number of writers, any interleaving: stdout is always whole blocks followed by what the holder of the lock
    * has written of its own block. */
  lemma {:induction false} AlwaysWholeBlocks(s: State, steps: seq<Step>)
    requires Inv(s) && Legal(s, steps)
    ensures Inv(AfterAll(s, steps))
    decreases |steps|
  {
    if steps != [] {
      StepKeeps(s, steps[0]);
      AlwaysWholeBlocks(After(s, steps[0]), steps[1..]);
    }
  }

  function Unclosed(s: State): set<nat> {
    set id | id in s.writers && s.writers[id].phase != Closed
  }

  lemma HolderUnclosed(s: State)
    requires LockHeld(s)
    ensures s.lock == None || s.lock.value in Unclosed(s)
  {
  }

  lemma AllClosed(s: State)
    requires Inv(s) && Unclosed(s) == {}
    ensures s.stdout == Blocks(s.order, s.given)
    ensures NoRepeats(s.order) && (forall id :: id in s.order <==> id in s.writers) && s.given.Keys == s.writers.Keys
  {
    HolderUnclosed(s);
    forall id ensures id in s.order <==> id in s.writers {
      assert id in s.writers ==> id !in Unclosed(s);
    }
  }

  /** Once every writer is closed, stdout holds what each was given, whole, once, and nothing else. */
  lemma NothingLost(steps: seq<Step>)
    requires Legal(START, steps) && Unclosed(AfterAll(START, steps)) == {}
    ensures var s := AfterAll(START, steps);
            && s.stdout == Blocks(s.order, s.given)
            && NoRepeats(s.order) && (forall id :: id in s.order <==> id in s.writers)
            && forall id :: id in s.order ==> id in s.given && s.given[id] == Written(steps, id)
  {
    var s := AfterAll(START, steps);
    AlwaysWholeBlocks(START, steps);
    AllClosed(s);
    forall id | id in s.order ensures s.given[id] == Written(steps, id) {
      GivenFromNothing(START, steps, id);
    }
  }

  lemma GivenFromNothing(s: State, steps: seq<Step>, id: nat)
    requires Shapes(s) && GivenTo(s, id) == "" && Legal(s, steps)
    ensures GivenTo(AfterAll(s, steps), id) == Written(steps, id)
  {
    GivenIsWritten(s, steps, id);
    assert GivenTo(s, id) + Written(steps, id) == Written(steps, id);
  }

  lemma Regroup(a: string, b: string, c: string)
    ensures (a + b) + c == a + (b + c)
  {
  }

  // ----- Live streaming -----

  /** What the steps write to `id`, in order. */
  function Written(steps: seq<Step>, id: nat): string {
    if steps == [] then "" else Piece(steps[0], id) + Written(steps[1..], id)
  }

  function Piece(step: Step, id: nat): string {
    if step.Write? && step.id == id then step.text else ""
  }

  predicate Leads(s: State, id: nat) {
    s.lock == Some(id) && id in s.writers && s.writers[id].leader && s.writers[id].phase == Open
  }

  lemma {:induction false} NoCloseOf(steps: seq<Step>, id: nat)
    requires steps != [] && forall step :: step in steps ==> step != Close(id)
    ensures steps[0] != Close(id) && forall step :: step in steps[1..] ==> step != Close(id)
  {
    assert steps[0] in steps && forall step :: step in steps[1..] ==> step in steps;
  }

  lemma LeaderStep(s: State, id: nat, step: Step)
    requires Inv(s) && Leads(s, id) && Enabled(s, step) && step != Close(id)
    ensures Leads(After(s, step), id)
    ensures After(s, step).stdout == s.stdout + Piece(step, id)
  {
    if step.id in s.writers { assert s.lock == Some(step.id) <==> s.writers[step.id].HoldsLock(); }
    if step.id in s.writers { assert WriterShape(s.writers[step.id], s.given[step.id]); }
  }

  lemma {:induction false} LeaderStays(s: State, id: nat, steps: seq<Step>)
    requires Inv(s) && Leads(s, id) && Legal(s, steps) && forall step :: step in steps ==> step != Close(id)
    ensures Leads(AfterAll(s, steps), id)
    ensures AfterAll(s, steps).stdout == s.stdout + Written(steps, id)
    decreases |steps|
  {
    if steps != [] {
      NoCloseOf(steps, id);
      LeaderStep(s, id, steps[0]);
      StepKeeps(s, steps[0]);
      LeaderStays(After(s, steps[0]), id, steps[1..]);
      Regroup(s.stdout, Piece(steps[0], id), Written(steps[1..], id));
    }
  }

  /** A writer made while no one holds the lock holds it until its own close, and what is written to it, and nothing
    * else, is on stdout at once, whatever the others do meanwhile. */
  lemma FirstStreamsLive(s: State, id: nat, steps: seq<Step>)
    requires Inv(s) && s.lock == None && Enabled(s, New(id)) && Legal(After(s, New(id)), steps)
    requires forall step :: step in steps ==> step != Close(id)
    ensures var t := AfterAll(After(s, New(id)), steps);
            t.lock == Some(id) && t.stdout == s.stdout + Written(steps, id)
  {
    StepKeeps(s, New(id));
    LeaderStays(After(s, New(id)), id, steps);
  }

  /** In particular, until anyone closes, stdout is what was written so far to the writer that was made first. */
  lemma OnlyFirstUntilClose(steps: seq<Step>)
    requires Legal(START, steps) && steps != [] && forall step :: step in steps ==> !step.Close?
    ensures steps[0].New? && AfterAll(START, steps).stdout == Written(steps, steps[0].id)
  {
    FirstStreamsLive(START, steps[0].id, steps[1..]);
    assert forall step :: step in steps[1..] ==> step in steps;
  }

  /** A writer made while another holds the lock writes nothing until it gets it. */
  lemma FollowerWaits(s: State, id: nat, text: string)
    requires Inv(s) && Enabled(s, Write(id, text)) && s.lock != Some(id)
    ensures After(s, Write(id, text)).stdout == s.stdout
  {
    assert s.lock == Some(id) <==> s.writers[id].HoldsLock();
  }

  function GivenTo(s: State, id: nat): string {
    if id in s.given then s.given[id] else ""
  }

  lemma GivenOne(s: State, step: Step, id: nat)
    requires Shapes(s) && Enabled(s, step)
    ensures Shapes(After(s, step)) && GivenTo(After(s, step), id) == GivenTo(s, id) + Piece(step, id)
  {
    KeepsShapes(s, step);
  }

  /** What a writer was given is what the steps wrote to it. */
  lemma {:induction false} GivenIsWritten(s: State, steps: seq<Step>, id: nat)
    requires Shapes(s) && Legal(s, steps)
    ensures GivenTo(AfterAll(s, steps), id) == GivenTo(s, id) + Written(steps, id)
    decreases |steps|
  {
    if steps != [] {
      GivenOne(s, steps[0], id);
      GivenIsWritten(After(s, steps[0]), steps[1..], id);
      Regroup(GivenTo(s, id), Piece(steps[0], id), Written(steps[1..], id));
    }
  }

  // ----- The lock is always let go -----

  /** What is left of a writer's Close when no one else is in its way. */
  function Remaining(w: Writer, id: nat): seq<Step> {
    match w.phase
    case Open => if w.leader then [Close(id)] else [Close(id), Acquire(id), Flush(id), Release(id)]
    case Blocked => [Acquire(id), Flush(id), Release(id)]
    case Holding => [Flush(id), Release(id)]
    case Flushed => [Release(id)]
    case Closed => []
  }

  lemma StepsOn(s: State, id: nat)
    requires Inv(s) && id in s.writers && (s.lock == None || s.lock == Some(id))
    requires Remaining(s.writers[id], id) != []
    ensures Enabled(s, Remaining(s.writers[id], id)[0])
    ensures var t := After(s, Remaining(s.writers[id], id)[0]);
            && id in t.writers && Remaining(t.writers[id], id) == Remaining(s.writers[id], id)[1..]
            && (t.lock == None || t.lock == Some(id))
            && To(t, id, Closed) == To(s, id, Closed)
            && t.given == s.given
  {
    assert WriterShape(s.writers[id], s.given[id]);
    assert s.lock == Some(id) <==> s.writers[id].HoldsLock();
  }

  lemma {:induction false} Finishes(s: State, id: nat)
    requires Inv(s) && id in s.writers && (s.lock == None || s.lock == Some(id))
    ensures Legal(s, Remaining(s.writers[id], id))
    ensures var t := AfterAll(s, Remaining(s.writers[id], id));
            && t.writers == To(s, id, Closed)
            && t.given == s.given
            && t.lock == None
    decreases |Remaining(s.writers[id], id)|
  {
    var steps := Remaining(s.writers[id], id);
    if steps != [] {
      StepsOn(s, id);
      StepKeeps(s, steps[0]);
      Finishes(After(s, steps[0]), id);
    } else {
      assert s.lock == Some(id) <==> s.writers[id].HoldsLock();
      assert To(s, id, Closed) == s.writers;
    }
  }

  /** The holder of the lock can always let go of it by its own steps alone. */
  lemma HolderCanRelease(s: State, id: nat)
    requires Inv(s) && s.lock == Some(id)
    ensures id in s.writers && Legal(s, Remaining(s.writers[id], id))
    ensures AfterAll(s, Remaining(s.writers[id], id)).lock == None
  {
    Finishes(s, id);
  }

  lemma {:induction false} AfterBoth(s: State, a: seq<Step>, b: seq<Step>)
    requires Legal(s, a) && Legal(AfterAll(s, a), b)
    ensures Legal(s, a + b) && AfterAll(s, a + b) == AfterAll(AfterAll(s, a), b)
    decreases |a|
  {
    if a == [] {
      assert a + b == b;
    } else {
      assert (a + b)[1..] == a[1..] + b;
      AfterBoth(After(s, a[0]), a[1..], b);
    }
  }

  lemma FinishOne(s: State, id: nat)
    requires Inv(s) && id in s.writers && (s.lock == None || s.lock == Some(id))
    ensures Legal(s, Remaining(s.writers[id], id))
    ensures var t := AfterAll(s, Remaining(s.writers[id], id));
            Inv(t) && t.given == s.given && Unclosed(t) == Unclosed(s) - {id}
  {
    Finishes(s, id);
    AlwaysWholeBlocks(s, Remaining(s.writers[id], id));
  }

  /** From wherever the writers are, closing them in some order always comes to an end: there is no deadlock. */
  lemma {:induction false} CanAlwaysFinish(s: State) returns (steps: seq<Step>)
    requires Inv(s)
    ensures Legal(s, steps) && Unclosed(AfterAll(s, steps)) == {} && AfterAll(s, steps).given == s.given
    decreases Unclosed(s)
  {
    if Unclosed(s) == {} {
      steps := [];
    } else {
      var id := NextToFinish(s);
      var first := Remaining(s.writers[id], id);
      FinishOne(s, id);
      var rest := CanAlwaysFinish(AfterAll(s, first));
      AfterBoth(s, first, rest);
      steps := first + rest;
    }
  }

  lemma NextToFinish(s: State) returns (id: nat)
    requires LockHeld(s) && Unclosed(s) != {}
    ensures id in Unclosed(s) && (s.lock == None || s.lock == Some(id))
  {
    HolderUnclosed(s);
    if s.lock == None { id :| id in Unclosed(s); } else { id := s.lock.value; }
  }

  // ----- The writers' code, one atomic piece at a time -----

  class Console {
    var lock: Option<nat>
    var stdout: string
    var writers: map<nat, Writer>
    ghost var given: map<nat, string>
    ghost var order: seq<nat>

    ghost function Now(): State
      reads this
    {
      State(lock, stdout, writers, given, order)
    }

    constructor ()
      ensures Now() == START
    {
      lock, stdout, writers, given, order := None, "", map[], map[], [];
    }

    method NewStreamingWriter(id: nat)
      requires Enabled(Now(), New(id)) && Inv(Now())
      modifies this
      ensures Now() == After(old(Now()), New(id)) && Inv(Now())
    {
      StepKeeps(Now(), New(id));
      var leader := false;
      if lock == None {
        lock := Some(id);
        leader := true;
      }
      writers := writers[id := Writer(leader, "", Open)];
      given := given[id := ""];
    }

    method WriteText(id: nat, text: string)
      requires Enabled(Now(), Write(id, text)) && Inv(Now())
      modifies this
      ensures Now() == After(old(Now()), Write(id, text)) && Inv(Now())
    {
      StepKeeps(Now(), Write(id, text));
      if writers[id].leader {
        stdout := stdout + text;
      } else {
        writers := writers[id := writers[id].(buf := writers[id].buf + text)];
      }
      given := given[id := given[id] + text];
    }

    /** Close up to where a follower blocks; only the first call does anything. */
    method BeginClose(id: nat)
      requires Enabled(Now(), Close(id)) && Inv(Now())
      modifies this
      ensures Now() == After(old(Now()), Close(id)) && Inv(Now())
    {
      StepKeeps(Now(), Close(id));
      if writers[id].phase == Open {
        if writers[id].leader {
          lock := None;
          writers := writers[id := writers[id].(phase := Closed)];
          order := order + [id];
        } else {
          writers := writers[id := writers[id].(phase := Blocked)];
        }
      }
    }

    method LockAcquired(id: nat)
      requires Enabled(Now(), Acquire(id)) && Inv(Now())
      modifies this
      ensures Now() == After(old(Now()), Acquire(id)) && Inv(Now())
    {
      StepKeeps(Now(), Acquire(id));
      lock := Some(id);
      writers := writers[id := writers[id].(phase := Holding)];
    }

    method FlushBuffer(id: nat)
      requires Enabled(Now(), Flush(id)) && Inv(Now())
      modifies this
      ensures Now() == After(old(Now()), Flush(id)) && Inv(Now())
    {
      StepKeeps(Now(), Flush(id));
      stdout := stdout + writers[id].buf;
      writers := writers[id := writers[id].(phase := Flushed)];
    }

    method Unlock(id: nat)
      requires Enabled(Now(), Release(id)) && Inv(Now())
      modifies this
      ensures Now() == After(old(Now()), Release(id)) && Inv(Now())
    {
      StepKeeps(Now(), Release(id));
      lock := None;
      writers := writers[id := writers[id].(phase := Closed)];
      order := order + [id];
    }
  }
}
