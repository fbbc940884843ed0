/** Canceling one task and everything that depends on it, against a walk in progress. */
module Cancel {
  import opened Projection
  import opened Wrappers

  // ----- What CancelTask writes -----

  /** The head and the cascade, without empty names and repeats, in order. */
  function Targets(names: seq<string>): seq<string> {
    Distinct(names, {""})
  }

  /** The row of a target after the cancel. */
  function TargetRow(rows: map<string, TaskRow>, name: string, at: string): TaskRow {
    if name in rows then CanceledTask(rows[name], at)
    else TaskRow(Canceled, 1, Some(at), Some(at), Some(0), None, 0.0, "", "")
  }

  function CancelTargets(rows: map<string, TaskRow>, targets: seq<string>, at: string): map<string, TaskRow> {
    if targets == [] then rows
    else
      var last := |targets| - 1;
      var before := CancelTargets(rows, targets[..last], at);
      before[targets[last] := TargetRow(before, targets[last], at)]
  }

  predicate Settled(rows: map<string, TaskRow>, name: string) {
    name in rows && rows[name].status.Terminal()
  }

  /** The targets already settled, or the others, in order. */
  function Pick(rows: map<string, TaskRow>, targets: seq<string>, settled: bool): seq<string> {
    if targets == [] then []
    else
      var last := |targets| - 1;
      var front := Pick(rows, targets[..last], settled);
      if Settled(rows, targets[last]) == settled then front + [targets[last]] else front
  }

  /** Every name that is not empty, once, in the order in which the names first come. */
  lemma TargetsAre(names: seq<string>)
    ensures NoRepeats(Targets(names))
    ensures forall n :: n in Targets(names) <==> n in names && n != ""
    ensures forall i, j :: 0 <= i < j < |Targets(names)| ==>
              Targets(names)[i] in names && Targets(names)[j] in names
              && FirstAt(names, Targets(names)[i]) < FirstAt(names, Targets(names)[j])
  {
    DistinctAre(names, {""});
    forall i, j | 0 <= i < j < |Targets(names)|
      ensures Targets(names)[i] in names && Targets(names)[j] in names
      ensures FirstAt(names, Targets(names)[i]) < FirstAt(names, Targets(names)[j])
    {
      DistinctInOrder(names, {""}, i, j);
    }
  }

  /** A target whose row says succeeded, failed or canceled keeps that row whole; of any other row only the status and the
    * end change; a target without a row gets a canceled one; and every row that is no target's stays as it was. */
  lemma {:induction false} CancelTargetsIs(rows: map<string, TaskRow>, targets: seq<string>, at: string)
    requires NoRepeats(targets)
    ensures var after := CancelTargets(rows, targets, at);
            && after.Keys == rows.Keys + (set n | n in targets)
            && (forall n :: n in rows && n !in targets ==> after[n] == rows[n])
            && (forall n :: n in rows && rows[n].status in {Succeeded, Failed, Canceled} ==> after[n] == rows[n])
            && (forall n :: n in rows && n in targets && rows[n].status !in {Succeeded, Failed, Canceled} ==>
                  after[n] == rows[n].(status := Canceled, endedAt := Some(at)))
            && (forall n :: n in targets && n !in rows ==>
                  after[n] == TaskRow(Canceled, 1, Some(at), Some(at), Some(0), None, 0.0, "", ""))
    decreases |targets|
  {
    if targets != [] {
      var last := |targets| - 1;
      CancelTargetsIs(rows, targets[..last], at);
      assert targets == targets[..last] + [targets[last]];
    }
  }

  /** The two lists reported split the targets: the settled ones, and the ones canceled. */
  lemma {:induction false} PicksSplit(rows: map<string, TaskRow>, targets: seq<string>)
    ensures multiset(Pick(rows, targets, true)) + multiset(Pick(rows, targets, false)) == multiset(targets)
    ensures forall n :: n in Pick(rows, targets, true) <==>
              n in targets && n in rows && rows[n].status in {Succeeded, Failed, Canceled}
    ensures forall n :: n in Pick(rows, targets, false) <==>
              n in targets && !(n in rows && rows[n].status in {Succeeded, Failed, Canceled})
    decreases |targets|
  {
    if targets != [] {
      var last := |targets| - 1;
      PicksSplit(rows, targets[..last]);
      assert targets == targets[..last] + [targets[last]];
    }
  }

  lemma PickLast(rows: map<string, TaskRow>, front: seq<string>, n: string, settled: bool)
    ensures Pick(rows, front + [n], settled) == Pick(rows, front, settled) + if Settled(rows, n) == settled then [n] else []
  {
    assert (front + [n])[..|front|] == front;
  }

  /** Each list keeps the order of the targets: lists of joined targets are joined. */
  lemma PicksInOrder(rows: map<string, TaskRow>, a: seq<string>, b: seq<string>, settled: bool)
    ensures Pick(rows, a + b, settled) == Pick(rows, a, settled) + Pick(rows, b, settled)
  {
    var f := (s: seq<string>) => Pick(rows, s, settled);
    var one := (n: string) => if Settled(rows, n) == settled then [n] else [];
    forall front, n ensures f(front + [n]) == f(front) + one(n) {
      PickLast(rows, front, n, settled);
    }
    Additive(f, one, a, b);
  }

  function CancelTasks(db: Tables, r: string, targets: seq<string>, at: string): Tables {
    db.(tasks := db.tasks[r := CancelTargets(TasksOf(db, r), targets, at)])
  }

  // ----- The gates in front of a task body -----

  /** The (run, task) row is canceled; false for an empty name or a missing row. */
  predicate IsTaskCanceled(db: Tables, r: string, name: string) {
    r != "" && name != "" && HasTask(db, r, name) && TasksOf(db, r)[name].status == Canceled
  }

  /** The projection, as the walk's own process reads it, and one walk of run `r`: the tasks let through by their cancel
    * gate, those stopped by it, and those whose body was entered. */
  datatype World = World(db: Tables, passed: set<string>, stopped: set<string>, entered: set<string>)

  datatype Move =
    | ReachGate(task: string)
    | EnterBody(task: string)
    | Record(event: Event)
    | CancelTaskCall(targets: seq<string>, at: string)
    | CancelRunCall(run: string, at: string)

  /** A task's body, and every event about its start, skip or end, comes after the task passed its gate. Tasks come to
    * their gates, events of other runs arrive and cancels are made whenever they like, and as often. */
  ghost predicate Allowed(r: string, w: World, m: Move) {
    match m
    case ReachGate(_) => true
    case EnterBody(n) => n in w.passed
    case Record(e) => e.runID == r && (e.entryType.TaskStart? || e.entryType.TaskSkipped? || IsTerminal(e)) ==> e.task in w.passed
    case CancelTaskCall(targets, _) => NoRepeats(targets)
    case CancelRunCall(_, _) => true
  }

  function Next(r: string, w: World, m: Move): World {
    match m
    case ReachGate(n) =>
      if IsTaskCanceled(w.db, r, n) then w.(stopped := w.stopped + {n}) else w.(passed := w.passed + {n})
    case EnterBody(n) => w.(entered := w.entered + {n})
    case Record(e) => w.(db := Apply(w.db, e))
    case CancelTaskCall(targets, at) => w.(db := CancelTasks(w.db, r, targets, at))
    case CancelRunCall(run, at) => w.(db := CancelRun(w.db, run, at))
  }

  function After(r: string, w: World, moves: seq<Move>): World
    decreases |moves|
  {
    if moves == [] then w else After(r, Next(r, w, moves[0]), moves[1..])
  }

  ghost predicate AllAllowed(r: string, w: World, moves: seq<Move>)
    decreases |moves|
  {
    moves != [] ==> Allowed(r, w, moves[0]) && AllAllowed(r, Next(r, w, moves[0]), moves[1..])
  }

  /** What a walk in progress looks like: only tasks that passed were entered, and a task that has not passed has
    * no row yet, or a queued or canceled one. */
  ghost predicate Sound(r: string, w: World) {
    && w.entered <= w.passed
    && forall n :: HasTask(w.db, r, n) && n !in w.passed ==>
         TasksOf(w.db, r)[n].status == Queued || TasksOf(w.db, r)[n].status == Canceled
  }

  /** Canceled, and not let through. */
  ghost predicate Blocked(r: string, w: World, name: string) {
    HasTask(w.db, r, name) && TasksOf(w.db, r)[name].status == Canceled && name !in w.passed && name !in w.entered
  }

  /** Not canceled, and not stopped. */
  ghost predicate Untouched(r: string, w: World, name: string) {
    (HasTask(w.db, r, name) ==> TasksOf(w.db, r)[name].status != Canceled) && name !in w.stopped
  }

  // ----- Rows a move leaves -----

  lemma CancelCallRow(r: string, db: Tables, targets: seq<string>, at: string, name: string)
    requires NoRepeats(targets)
    ensures HasTask(CancelTasks(db, r, targets, at), r, name) <==> HasTask(db, r, name) || name in targets
    ensures HasTask(db, r, name) && (name !in targets || TasksOf(db, r)[name].status.Terminal()) ==>
              TasksOf(CancelTasks(db, r, targets, at), r)[name] == TasksOf(db, r)[name]
    ensures name in targets && !(HasTask(db, r, name) && TasksOf(db, r)[name].status.Terminal()) ==>
              TasksOf(CancelTasks(db, r, targets, at), r)[name].status == Canceled
  {
    CancelTargetsIs(TasksOf(db, r), targets, at);
  }

  /** A cancel of tasks takes nothing out of a later retry, and adds nothing to what it skips. */
  lemma CancelTasksTakesNothing(db: Tables, r: string, targets: seq<string>, at: string)
    requires NoRepeats(targets)
    ensures SucceededRows(CancelTasks(db, r, targets, at), r) == SucceededRows(db, r)
  {
    CancelTargetsIs(TasksOf(db, r), targets, at);
  }

  /** No row but those of the names in run `r` changes, and of these none that says succeeded, failed or canceled. */
  ghost predicate OnlyUnsettled(before: Tables, after: Tables, r: string, names: seq<string>) {
    forall run, n ::
      (HasTask(before, run, n) && (run != r || n !in names || TasksOf(before, run)[n].status in {Succeeded, Failed, Canceled})) ==>
        HasTask(after, run, n) && TasksOf(after, run)[n] == TasksOf(before, run)[n]
  }

  lemma CancelTasksOnly(db: Tables, r: string, names: seq<string>, at: string)
    ensures OnlyUnsettled(db, CancelTasks(db, r, Targets(names), at), r, names)
  {
    TargetsAre(names);
    CancelTargetsIs(TasksOf(db, r), Targets(names), at);
  }

  // ----- Every move keeps a world sound -----

  lemma RecordKeepsSound(r: string, w: World, e: Event)
    requires Sound(r, w) && Allowed(r, w, Record(e))
    ensures Sound(r, Next(r, w, Record(e)))
  {
    var db := Apply(w.db, e);
    forall n | HasTask(db, r, n) && n !in w.passed
      ensures TasksOf(db, r)[n].status == Queued || TasksOf(db, r)[n].status == Canceled
    {
      if HasTask(w.db, r, n) { RowAfterIs(w.db, e, r, n); } else { FreshRow(w.db, e, r, n); }
    }
  }

  lemma CancelCallKeepsSound(r: string, w: World, targets: seq<string>, at: string)
    requires Sound(r, w) && NoRepeats(targets)
    ensures Sound(r, Next(r, w, CancelTaskCall(targets, at)))
  {
    var db := CancelTasks(w.db, r, targets, at);
    forall n | HasTask(db, r, n) && n !in w.passed
      ensures TasksOf(db, r)[n].status == Queued || TasksOf(db, r)[n].status == Canceled
    {
      CancelCallRow(r, w.db, targets, at, n);
    }
  }

  lemma MoveKeepsSound(r: string, w: World, m: Move)
    requires Sound(r, w) && Allowed(r, w, m)
    ensures Sound(r, Next(r, w, m))
  {
    match m {
      case Record(e) => RecordKeepsSound(r, w, e);
      case CancelTaskCall(targets, at) => CancelCallKeepsSound(r, w, targets, at);
      case CancelRunCall(run, at) => CancelSettlesAll(w.db, run, at);
      case _ =>
    }
  }

  // ----- A task canceled in time is blocked for good -----

  lemma RecordKeepsBlocked(r: string, w: World, e: Event, name: string)
    requires Allowed(r, w, Record(e)) && Blocked(r, w, name)
    ensures Blocked(r, Next(r, w, Record(e)), name)
  {
    RowAfterIs(w.db, e, r, name);
  }

  lemma MoveKeepsBlocked(r: string, w: World, m: Move, name: string)
    requires r != "" && name != "" && Allowed(r, w, m) && Blocked(r, w, name)
    ensures Blocked(r, Next(r, w, m), name)
  {
    match m {
      case Record(e) => RecordKeepsBlocked(r, w, e, name);
      case CancelTaskCall(targets, at) => CancelCallRow(r, w.db, targets, at, name);
      case CancelRunCall(run, at) => CancelSettlesAll(w.db, run, at);
      case _ =>
    }
  }

  lemma {:induction false} NothingUndone(r: string, w: World, moves: seq<Move>)
    ensures var end := After(r, w, moves);
            w.passed <= end.passed && w.stopped <= end.stopped && w.entered <= end.entered
    decreases |moves|
  {
    if moves != [] {
      NothingUndone(r, Next(r, w, moves[0]), moves[1..]);
    }
  }

  lemma {:induction false} BlockedForGood(r: string, w: World, moves: seq<Move>, name: string)
    requires r != "" && name != "" && AllAllowed(r, w, moves) && Blocked(r, w, name)
    ensures Blocked(r, After(r, w, moves), name)
    ensures ReachGate(name) in moves ==> name in After(r, w, moves).stopped
    decreases |moves|
  {
    if moves != [] {
      NothingUndone(r, Next(r, w, moves[0]), moves[1..]);
      MoveKeepsBlocked(r, w, moves[0], name);
      BlockedForGood(r, Next(r, w, moves[0]), moves[1..], name);
    }
  }

  lemma {:induction false} StaysSound(r: string, w: World, moves: seq<Move>)
    requires Sound(r, w) && AllAllowed(r, w, moves)
    ensures Sound(r, After(r, w, moves))
    decreases |moves|
  {
    if moves != [] {
      MoveKeepsSound(r, w, moves[0]);
      StaysSound(r, Next(r, w, moves[0]), moves[1..]);
    }
  }

  /** A cancel blocks every target that has not come to its gate: whatever happened in the walk before, and whatever
    * happens after, its gate stops it and its body is never entered. */
  lemma CanceledNeverRuns(r: string, start: World, before: seq<Move>, targets: seq<string>, at: string,
                                             after: seq<Move>, name: string)
    requires r != "" && Sound(r, start) && AllAllowed(r, start, before) && NoRepeats(targets)
    requires var w := After(r, start, before);
             name !in w.passed && AllAllowed(r, Next(r, w, CancelTaskCall(targets, at)), after)
    requires name in targets && name != ""
    ensures var end := After(r, Next(r, After(r, start, before), CancelTaskCall(targets, at)), after);
            Blocked(r, end, name) && (ReachGate(name) in after ==> name in end.stopped)
  {
    var w := After(r, start, before);
    StaysSound(r, start, before);
    CancelCallRow(r, w.db, targets, at, name);
    BlockedForGood(r, Next(r, w, CancelTaskCall(targets, at)), after, name);
  }

  // ----- And nothing else is stopped -----

  /** No cancel is aimed at the task or its run. */
  predicate Spares(m: Move, r: string, name: string) {
    match m
    case CancelTaskCall(targets, _) => name !in targets
    case CancelRunCall(run, _) => run != r
    case _ => true
  }

  lemma MoveKeepsUntouched(r: string, w: World, m: Move, name: string)
    requires Allowed(r, w, m) && Spares(m, r, name) && Untouched(r, w, name)
    ensures Untouched(r, Next(r, w, m), name)
  {
    match m {
      case Record(e) =>
        if HasTask(w.db, r, name) {
          RowAfterIs(w.db, e, r, name);
        } else if HasTask(Apply(w.db, e), r, name) {
          FreshRow(w.db, e, r, name);
        }
      case CancelTaskCall(targets, at) => CancelCallRow(r, w.db, targets, at, name);
      case CancelRunCall(run, at) => CancelSettlesAll(w.db, run, at);
      case _ =>
    }
  }

  /** A task no cancel names is never stopped, since no event the fold knows cancels a row: its gate lets it through. */
  lemma {:induction false} OnlyTargetsStop(r: string, w: World, moves: seq<Move>, name: string)
    requires AllAllowed(r, w, moves) && Untouched(r, w, name)
    requires forall m :: m in moves ==> Spares(m, r, name)
    ensures Untouched(r, After(r, w, moves), name)
    ensures ReachGate(name) in moves ==> name in After(r, w, moves).passed
    ensures EnterBody(name) in moves ==> name in After(r, w, moves).entered
    decreases |moves|
  {
    if moves != [] {
      NothingUndone(r, Next(r, w, moves[0]), moves[1..]);
      assert moves == [moves[0]] + moves[1..];
      MoveKeepsUntouched(r, w, moves[0], name);
      OnlyTargetsStop(r, Next(r, w, moves[0]), moves[1..], name);
    }
  }
}
