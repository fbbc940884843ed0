/** One run from end to end: the walk's callbacks become events, the projection folds them into rows, and
  * retry-failed reads its skip list off those rows. */
module Replay {
  import opened Dag
  import opened Narrow
  import opened Schedule
  import opened Walk
  import opened Walker
  import P = Projection
  import opened Wrappers
  import Retry

  // ----- Events of a run -----

  /** What the events of run `r` say was started and ended, in order. Events of other runs may come in between. */
  function Seen(events: seq<P.Event>, r: string): seq<Event> {
    if events == [] then []
    else
      var e, rest := events[0], Seen(events[1..], r);
      if e.runID != r then rest
      else if e.entryType.TaskStart? then [Launched(e.task)] + rest
      else if P.IsTerminal(e) then [Returned(e.task, e.success == Some(false))] + rest
      else rest
  }

  /** The walk's callbacks that reach a body. A skipped dependent is reported too, but its event changes no row. */
  function Bodies(log: seq<Event>): seq<Event> {
    if log == [] then []
    else
      var last := |log| - 1;
      if log[last].DepFailed? then Bodies(log[..last]) else Bodies(log[..last]) + [log[last]]
  }

  // ----- The status of a row -----

  function Turned(status: P.Status, step: Event, n: string): P.Status {
    if step.node != n then status
    else match step
      case Launched(_) => P.Running
      case Returned(_, bodyFailed) => if bodyFailed then P.Failed else P.Succeeded
      case DepFailed(_, _) => status
  }

  function TurnedByAll(status: P.Status, steps: seq<Event>, n: string): P.Status
    decreases |steps|
  {
    if steps == [] then status else TurnedByAll(Turned(status, steps[0], n), steps[1..], n)
  }

  lemma {:induction false} TurnedByLast(status: P.Status, steps: seq<Event>, last: Event, n: string)
    ensures TurnedByAll(status, steps + [last], n) == Turned(TurnedByAll(status, steps, n), last, n)
    decreases |steps|
  {
    if steps == [] {
      assert steps + [last] == [last];
    } else {
      assert (steps + [last])[1..] == steps[1..] + [last];
      TurnedByLast(Turned(status, steps[0], n), steps[1..], last, n);
    }
  }

  /** What one event does to a task's row. */
  lemma RowTurns(db: P.Tables, e: P.Event, r: string, n: string, rest: seq<P.Event>)
    requires r != "" && P.HasTask(db, r, n) && P.TasksOf(db, r)[n].status != P.Canceled && r in db.runs
    requires e.runID == r ==> !e.entryType.TaskSkipped?
    ensures P.HasTask(P.Apply(db, e), r, n) && P.TasksOf(P.Apply(db, e), r)[n].status != P.Canceled
    ensures TurnedByAll(P.TasksOf(db, r)[n].status, Seen([e] + rest, r), n)
         == TurnedByAll(P.TasksOf(P.Apply(db, e), r)[n].status, Seen(rest, r), n)
  {
    P.RowAfterIs(db, e, r, n);
    assert ([e] + rest)[1..] == rest;
    var seen, later := Seen([e] + rest, r), Seen(rest, r);
    if e.runID == r && (e.entryType.TaskStart? || P.IsTerminal(e)) { assert seen[1..] == later; }
  }

  /** A task's row follows the starts and ends of the task, and nothing else. */
  lemma {:induction false} RowFollows(db: P.Tables, events: seq<P.Event>, r: string, n: string)
    requires r != "" && P.HasTask(db, r, n) && P.TasksOf(db, r)[n].status != P.Canceled
    requires r in db.runs
    requires forall e :: e in events && e.runID == r ==> !e.entryType.TaskSkipped?
    ensures P.HasTask(P.ApplyAll(db, events), r, n)
    ensures P.TasksOf(P.ApplyAll(db, events), r)[n].status == TurnedByAll(P.TasksOf(db, r)[n].status, Seen(events, r), n)
    decreases |events|
  {
    if events != [] {
      var e := events[0];
      assert events == [e] + events[1..];
      RowTurns(db, e, r, n, events[1..]);
      RunStays(db, e, r);
      RowFollows(P.Apply(db, e), events[1..], r, n);
    }
  }

  lemma RunStays(db: P.Tables, e: P.Event, r: string)
    requires r in db.runs
    ensures r in P.Apply(db, e).runs
  {
  }

  /** The status is the one of the end of `n` in `log`, if there is one. */
  ghost predicate EndsAs(status: P.Status, log: seq<Event>, n: string) {
    && (status == P.Succeeded || status == P.Failed ==> Returned(n, status == P.Failed) in log)
    && ((exists b :: Returned(n, b) in log) ==> status == P.Succeeded || status == P.Failed)
  }

  lemma EndsAsBefore(p: Plan, status: P.Status, past: seq<Event>, e: Event, n: string)
    requires WellOrdered(p, past) && e !in past && EndsAs(status, past, n)
    ensures EndsAs(Turned(status, e, n), past + [e], n)
  {
    if e == Launched(n) {
      forall b | Returned(n, b) in past ensures false { LaunchedBefore(p, past, n, b); }
    }
    assert forall b :: Returned(n, b) in past + [e] <==> Returned(n, b) in past || Returned(n, b) == e;
  }

  lemma BodiesLast(status: P.Status, past: seq<Event>, e: Event, n: string)
    ensures TurnedByAll(status, Bodies(past + [e]), n) == Turned(TurnedByAll(status, Bodies(past), n), e, n)
  {
    assert (past + [e])[..|past|] == past;
    if !e.DepFailed? { TurnedByLast(status, Bodies(past), e, n); }
  }

  /** The last start or end of a task is its end, if it has one. */
  lemma {:induction false} LastWord(p: Plan, log: seq<Event>, n: string)
    requires WellOrdered(p, log)
    ensures EndsAs(TurnedByAll(P.Queued, Bodies(log), n), log, n)
    decreases |log|
  {
    if log != [] {
      var last := |log| - 1;
      LastWord(p, log[..last], n);
      assert log == log[..last] + [log[last]];
      BodiesLast(P.Queued, log[..last], log[last], n);
      EndsAsBefore(p, TurnedByAll(P.Queued, Bodies(log[..last]), n), log[..last], log[last], n);
    }
  }

  lemma {:induction false} LaunchedBefore(p: Plan, log: seq<Event>, n: string, b: bool)
    requires WellOrdered(p, log) && Returned(n, b) in log
    ensures Launched(n) in log
    decreases |log|
  {
    var last := |log| - 1;
    assert log == log[..last] + [log[last]];
    if log[last] != Returned(n, b) { LaunchedBefore(p, log[..last], n, b); }
  }

  lemma SucceededMeans(p: Plan, errs: Errors, log: seq<Event>, skipped: map<string, string>, n: string)
    requires Callbacks(p, errs, log, RanTasks(p, errs), skipped)
    ensures TurnedByAll(P.Queued, Bodies(log), n) == P.Succeeded <==> n in SucceededTasks(p, errs)
  {
    LastWord(p, log, n);
    if Meaning(p, errs, n).Ran? { RanReads(p, errs, n); }
    MeaningEquation(p, errs, n);
    assert Returned(n, n in errs) in log <==> n in RanTasks(p, errs);
  }

  lemma RunBegins(db: P.Tables, start: P.Event, r: string, n: string)
    requires r != "" && P.TasksOf(db, r) == map[]
    requires start.entryType.ScheduleStart? && start.runID == r && n in start.tasks
    ensures P.HasTask(P.Apply(db, start), r, n) && P.TasksOf(P.Apply(db, start), r)[n].status == P.Queued
    ensures r in P.Apply(db, start).runs
  {
    P.QueuedKeeps(map[], start.tasks);
  }

  /** After a run whose events reached the projection, a task's row says succeeded exactly when the plain meaning of
    * the graph says the task ran and returned no error. Tasks skipped for a failed dependency stay queued. */
  lemma RowsSaySucceeded(db: P.Tables, start: P.Event, events: seq<P.Event>, r: string, tasks: seq<Task>,
                                            errs: Errors, log: seq<Event>, skipped: map<string, string>, n: string)
    requires r != "" && P.TasksOf(db, r) == map[]
    requires start.entryType.ScheduleStart? && start.runID == r && forall m :: m in start.tasks <==> m in Names(tasks)
    requires forall e :: e in events && e.runID == r ==> !e.entryType.TaskSkipped?
    requires Callbacks(PlanOf(tasks), errs, log, RanTasks(PlanOf(tasks), errs), skipped)
    requires Seen(events, r) == Bodies(log)
    requires n in Names(tasks)
    ensures var rows := P.TasksOf(P.ApplyAll(P.Apply(db, start), events), r);
            n in rows && (rows[n].status == P.Succeeded <==> n in SucceededTasks(PlanOf(tasks), errs))
  {
    RunBegins(db, start, r, n);
    RowFollows(P.Apply(db, start), events, r, n);
    SucceededMeans(PlanOf(tasks), errs, log, skipped, n);
  }

  /** A task that no event of the run starts or ends has no row, or one that stays queued. */
  lemma {:induction false} RowUntouched(db: P.Tables, events: seq<P.Event>, r: string, n: string)
    requires forall e :: e in events && e.runID == r ==> !e.entryType.TaskSkipped?
    requires forall step :: step in Seen(events, r) ==> step.node != n
    requires P.HasTask(db, r, n) ==> P.TasksOf(db, r)[n].status == P.Queued
    ensures P.HasTask(P.ApplyAll(db, events), r, n) ==> P.TasksOf(P.ApplyAll(db, events), r)[n].status == P.Queued
    decreases |events|
  {
    if events != [] {
      var e := events[0];
      assert events == [e] + events[1..];
      assert forall step :: step in Seen(events[1..], r) ==> step in Seen(events, r);
      RowUntouchedBy(db, e, events[1..], r, n);
      RowUntouched(P.Apply(db, e), events[1..], r, n);
    }
  }

  lemma RowUntouchedBy(db: P.Tables, e: P.Event, rest: seq<P.Event>, r: string, n: string)
    requires e.runID == r ==> !e.entryType.TaskSkipped?
    requires forall step :: step in Seen([e] + rest, r) ==> step.node != n
    requires P.HasTask(db, r, n) ==> P.TasksOf(db, r)[n].status == P.Queued
    ensures P.HasTask(P.Apply(db, e), r, n) ==> P.TasksOf(P.Apply(db, e), r)[n].status == P.Queued
  {
    if e.runID == r && (e.entryType.TaskStart? || P.IsTerminal(e)) {
      assert ([e] + rest)[0] == e;
      assert Seen([e] + rest, r)[0].node == e.task && Seen([e] + rest, r)[0] in Seen([e] + rest, r);
    }
    if P.HasTask(db, r, n) {
      P.RowAfterIs(db, e, r, n);
    } else if P.HasTask(P.Apply(db, e), r, n) {
      P.FreshRow(db, e, r, n);
    }
  }

  lemma {:induction false} NodesAreTasks(p: Plan, log: seq<Event>)
    requires WellOrdered(p, log)
    ensures forall e :: e in log ==> e.node in p.deps
    ensures forall e :: e in Bodies(log) ==> e in log
    decreases |log|
  {
    if log != [] {
      NodesAreTasks(p, log[..|log| - 1]);
      assert log == log[..|log| - 1] + [log[|log| - 1]];
    }
  }

  /** After a run whose events reached the projection, the rows that say succeeded are those of the tasks that succeed
    * in the plain meaning of the graph, and of nothing else. */
  lemma SucceededRowsAre(db: P.Tables, start: P.Event, events: seq<P.Event>, r: string, tasks: seq<Task>,
                         errs: Errors, log: seq<Event>, skipped: map<string, string>)
    requires r != "" && P.TasksOf(db, r) == map[]
    requires start.entryType.ScheduleStart? && start.runID == r && forall m :: m in start.tasks <==> m in Names(tasks)
    requires forall e :: e in events && e.runID == r ==> !e.entryType.TaskSkipped?
    requires Callbacks(PlanOf(tasks), errs, log, RanTasks(PlanOf(tasks), errs), skipped)
    requires Seen(events, r) == Bodies(log)
    ensures P.SucceededRows(P.ApplyAll(P.Apply(db, start), events), r) == SucceededTasks(PlanOf(tasks), errs)
  {
    var final := P.ApplyAll(P.Apply(db, start), events);
    DepsKeys(tasks);
    NodesAreTasks(PlanOf(tasks), log);
    P.QueuedKeeps(map[], start.tasks);
    forall n ensures n in P.SucceededRows(final, r) <==> n in SucceededTasks(PlanOf(tasks), errs) {
      if n in Names(tasks) {
        RowsSaySucceeded(db, start, events, r, tasks, errs, log, skipped, n);
      } else {
        assert !P.HasTask(P.Apply(db, start), r, n);
        RowUntouched(P.Apply(db, start), events, r, n);
      }
    }
  }

  // ----- Runs that are canceled -----

  /** What comes later in a log did not come before. */
  lemma NewLater(p: Plan, log1: seq<Event>, log2: seq<Event>, e: Event)
    requires WellOrdered(p, log1 + log2) && e in log2
    ensures e !in log1
  {
    var j :| 0 <= j < |log2| && log2[j] == e;
    var log := log1 + log2;
    LogReads(p, log, |log1| + j);
    forall x | x in log1 ensures x in log[..|log1| + j] {
      var k :| 0 <= k < |log1| && log1[k] == x;
      assert log[..|log1| + j][k] == x;
    }
  }

  lemma {:induction false} OrderedUpTo(p: Plan, log1: seq<Event>, log2: seq<Event>)
    requires WellOrdered(p, log1 + log2)
    ensures WellOrdered(p, log1)
    decreases |log2|
  {
    if log2 == [] {
      assert log1 + log2 == log1;
    } else {
      var last := |log2| - 1;
      assert (log1 + log2)[..|log1| + last] == log1 + log2[..last];
      OrderedUpTo(p, log1, log2[..last]);
    }
  }

  lemma {:induction false} NothingOf(status: P.Status, steps: seq<Event>, n: string)
    requires forall step :: step in steps ==> step.node != n
    ensures TurnedByAll(status, steps, n) == status
    decreases |steps|
  {
    if steps != [] {
      assert forall step :: step in steps[1..] ==> step in steps;
      NothingOf(status, steps[1..], n);
    }
  }

  lemma {:induction false} NeverCanceled(status: P.Status, steps: seq<Event>, n: string)
    requires status == P.Queued || status == P.Running || status == P.Succeeded || status == P.Failed
    ensures var after := TurnedByAll(status, steps, n);
            after == P.Queued || after == P.Running || after == P.Succeeded || after == P.Failed
    decreases |steps|
  {
    if steps != [] { NeverCanceled(Turned(status, steps[0], n), steps[1..], n); }
  }

  lemma {:induction false} BodiesOf(log: seq<Event>)
    ensures forall e :: e in Bodies(log) <==> e in log && !e.DepFailed?
    decreases |log|
  {
    if log != [] {
      BodiesOf(log[..|log| - 1]);
      assert log == log[..|log| - 1] + [log[|log| - 1]];
    }
  }

  /** A body that has ended has no further part in the log. */
  lemma EndedIsOver(p: Plan, errs: Errors, log1: seq<Event>, log2: seq<Event>, n: string)
    requires WellOrdered(p, log1 + log2) && forall m, b :: Returned(m, b) in log1 + log2 ==> b == (m in errs)
    requires exists b :: Returned(n, b) in log1
    ensures forall e :: e in Bodies(log2) ==> e.node != n
  {
    BodiesOf(log2);
    var b :| Returned(n, b) in log1;
    OrderedUpTo(p, log1, log2);
    LaunchedBefore(p, log1, n, b);
    assert Returned(n, b) in log1 + log2;
    forall e | e in Bodies(log2) ensures e.node != n {
      NewLater(p, log1, log2, e);
      assert e in log1 + log2;
      assert e != Launched(n) && e != Returned(n, b);
    }
  }

  /** A row through a cancel and what comes after: kept if the task's body had ended, and canceled for good if not. */
  lemma RowThroughCancel(db: P.Tables, r: string, at: string, events: seq<P.Event>, n: string)
    requires r != "" && P.HasTask(db, r, n) && r in db.runs && P.TasksOf(db, r)[n].status != P.Canceled
    requires forall e :: e in events ==> !P.Revives(e, r)
    ensures var status, after := P.TasksOf(db, r)[n].status, P.ApplyAll(P.CancelRun(db, r, at), events);
            && P.HasTask(after, r, n)
            && (status != P.Succeeded && status != P.Failed ==> P.TasksOf(after, r)[n].status == P.Canceled)
            && ((status == P.Succeeded || status == P.Failed) && (forall step :: step in Seen(events, r) ==> step.node != n) ==>
                  P.TasksOf(after, r)[n].status == status)
  {
    var status := P.TasksOf(db, r)[n].status;
    P.CancelWrites(db, r, at);
    if status != P.Succeeded && status != P.Failed {
      P.CanceledTaskStaysCanceled(db, r, at, events, n);
    } else {
      RowFollows(P.CancelRun(db, r, at), events, r, n);
      if forall step :: step in Seen(events, r) ==> step.node != n { NothingOf(status, Seen(events, r), n); }
    }
  }

  /** A name that is no task's has no row that says succeeded, before or after the cancel. */
  lemma NoTaskNoRow(db: P.Tables, r: string, at: string, events: seq<P.Event>, n: string)
    requires r != "" && (P.HasTask(db, r, n) ==> P.TasksOf(db, r)[n].status == P.Queued)
    requires forall e :: e in events ==> !P.Revives(e, r)
    requires forall step :: step in Seen(events, r) ==> step.node != n
    ensures n !in P.SucceededRows(P.ApplyAll(P.CancelRun(db, r, at), events), r)
  {
    P.CancelWrites(db, r, at);
    if P.HasTask(db, r, n) {
      P.CanceledTaskStaysCanceled(db, r, at, events, n);
    } else {
      RowUntouched(P.CancelRun(db, r, at), events, r, n);
    }
  }

  /** Of a run canceled at any point, after which nothing of it is started any more, the tasks that retry-failed leaves out
    * are exactly those whose body had ended without an error by then: a canceled task is always run again. */
  lemma CanceledRunLeavesOut(db: P.Tables, start: P.Event, events1: seq<P.Event>, at: string, events2: seq<P.Event>, r: string,
                             tasks: seq<Task>, errs: Errors, log1: seq<Event>, log2: seq<Event>)
    requires r != "" && P.TasksOf(db, r) == map[]
    requires start.entryType.ScheduleStart? && start.runID == r && forall m :: m in start.tasks <==> m in Names(tasks)
    requires forall e :: e in events1 && e.runID == r ==> !e.entryType.TaskSkipped?
    requires forall e :: e in events2 ==> !P.Revives(e, r)
    requires WellOrdered(PlanOf(tasks), log1 + log2)
    requires forall n, b :: Returned(n, b) in log1 + log2 ==> b == (n in errs)
    requires Seen(events1, r) == Bodies(log1) && Seen(events2, r) == Bodies(log2)
    ensures var canceled := P.CancelRun(P.ApplyAll(P.Apply(db, start), events1), r, at);
            forall n :: n in P.SucceededRows(P.ApplyAll(canceled, events2), r) <==> Returned(n, false) in log1
  {
    forall n
      ensures n in P.SucceededRows(P.ApplyAll(P.CancelRun(P.ApplyAll(P.Apply(db, start), events1), r, at), events2), r)
         <==> Returned(n, false) in log1
    {
      if n in Names(tasks) {
        TaskLeftOut(db, start, events1, at, events2, r, tasks, errs, log1, log2, n);
      } else {
        NamelessLeftOut(db, start, events1, at, events2, r, tasks, log1, log2, n);
      }
    }
  }

  lemma TaskLeftOut(db: P.Tables, start: P.Event, events1: seq<P.Event>, at: string, events2: seq<P.Event>, r: string,
                    tasks: seq<Task>, errs: Errors, log1: seq<Event>, log2: seq<Event>, n: string)
    requires r != "" && P.TasksOf(db, r) == map[]
    requires start.entryType.ScheduleStart? && start.runID == r && n in start.tasks
    requires forall e :: e in events1 && e.runID == r ==> !e.entryType.TaskSkipped?
    requires forall e :: e in events2 ==> !P.Revives(e, r)
    requires WellOrdered(PlanOf(tasks), log1 + log2)
    requires forall n, b :: Returned(n, b) in log1 + log2 ==> b == (n in errs)
    requires Seen(events1, r) == Bodies(log1) && Seen(events2, r) == Bodies(log2)
    ensures n in P.SucceededRows(P.ApplyAll(P.CancelRun(P.ApplyAll(P.Apply(db, start), events1), r, at), events2), r)
       <==> Returned(n, false) in log1
  {
    var begun := P.Apply(db, start);
    var stopped := P.ApplyAll(begun, events1);
    RunBegins(db, start, r, n);
    RowFollows(begun, events1, r, n);
    RunsStay(begun, events1, r);
    OrderedUpTo(PlanOf(tasks), log1, log2);
    LastWord(PlanOf(tasks), log1, n);
    NeverCanceled(P.Queued, Bodies(log1), n);
    RowThroughCancel(stopped, r, at, events2, n);
    if b :| Returned(n, b) in log1 {
      assert Returned(n, b) in log1 + log2;
      EndedIsOver(PlanOf(tasks), errs, log1, log2, n);
      OneEnd(errs, log1 + log2, log1, n);
    }
  }

  lemma OneEnd(errs: Errors, log: seq<Event>, part: seq<Event>, n: string)
    requires forall m, b :: Returned(m, b) in log ==> b == (m in errs)
    requires forall e :: e in part ==> e in log
    ensures !(Returned(n, true) in part && Returned(n, false) in part)
  {
  }

  lemma {:induction false} RunsStay(db: P.Tables, events: seq<P.Event>, r: string)
    requires r in db.runs
    ensures r in P.ApplyAll(db, events).runs
    decreases |events|
  {
    if events != [] {
      RunStays(db, events[0], r);
      RunsStay(P.Apply(db, events[0]), events[1..], r);
    }
  }

  lemma NamelessLeftOut(db: P.Tables, start: P.Event, events1: seq<P.Event>, at: string, events2: seq<P.Event>, r: string,
                        tasks: seq<Task>, log1: seq<Event>, log2: seq<Event>, n: string)
    requires r != "" && P.TasksOf(db, r) == map[]
    requires start.entryType.ScheduleStart? && start.runID == r && n !in start.tasks && n !in Names(tasks)
    requires forall e :: e in events1 && e.runID == r ==> !e.entryType.TaskSkipped?
    requires forall e :: e in events2 ==> !P.Revives(e, r)
    requires WellOrdered(PlanOf(tasks), log1 + log2)
    requires Seen(events1, r) == Bodies(log1) && Seen(events2, r) == Bodies(log2)
    ensures n !in P.SucceededRows(P.ApplyAll(P.CancelRun(P.ApplyAll(P.Apply(db, start), events1), r, at), events2), r)
    ensures Returned(n, false) !in log1
  {
    DepsKeys(tasks);
    NodesAreTasks(PlanOf(tasks), log1 + log2);
    BodiesOf(log1);
    BodiesOf(log2);
    assert forall e :: e in log1 || e in log2 ==> e in log1 + log2;
    P.QueuedKeeps(map[], start.tasks);
    assert !P.HasTask(P.Apply(db, start), r, n);
    RowUntouched(P.Apply(db, start), events1, r, n);
    NoTaskNoRow(P.ApplyAll(P.Apply(db, start), events1), r, at, events2, n);
  }

  /** Retry-failed after a run, its skip list being the rows that say succeeded, as the store's method reads them:
    * whatever the retried bodies do, each task left means what it means in the whole schedule with the recorded
    * successes reused; and if no retried body returns an error, on a graph without cycles or missing names, every
    * task succeeds in exactly one of the two runs. */
  lemma RetryAfterRun(db: P.Tables, start: P.Event, events: seq<P.Event>, r: string, tasks: seq<Task>,
                                         first: Errors, log: seq<Event>, skipped: map<string, string>, second: Errors)
    requires r != "" && P.TasksOf(db, r) == map[] && "" !in Names(tasks)
    requires start.entryType.ScheduleStart? && start.runID == r && forall m :: m in start.tasks <==> m in Names(tasks)
    requires forall e :: e in events && e.runID == r ==> !e.entryType.TaskSkipped?
    requires Callbacks(PlanOf(tasks), first, log, RanTasks(PlanOf(tasks), first), skipped)
    requires Seen(events, r) == Bodies(log)
    ensures var done := P.SucceededRows(P.ApplyAll(P.Apply(db, start), events), r);
            var sub := PlanOf(Strip(tasks, done));
            && (forall n :: n in Names(tasks) && n !in done ==>
                  Meaning(sub, second, n) == Meaning(PlanOf(tasks), Retry.Reusing(done, second), n))
            && (Closed(PlanOf(tasks)) && Acyclic(PlanOf(tasks)) && FailedBodies(sub, second) == {} ==>
                  done !! SucceededTasks(sub, second) && done + SucceededTasks(sub, second) == Names(tasks))
  {
    SucceededRowsAre(db, start, events, r, tasks, first, log, skipped);
    RetryOfSucceeded(tasks, first, second);
  }

  lemma RetryOfSucceeded(tasks: seq<Task>, first: Errors, second: Errors)
    requires "" !in Names(tasks)
    ensures var done := SucceededTasks(PlanOf(tasks), first);
            var sub := PlanOf(Strip(tasks, done));
            && (forall n :: n in Names(tasks) && n !in done ==>
                  Meaning(sub, second, n) == Meaning(PlanOf(tasks), Retry.Reusing(done, second), n))
            && (Closed(PlanOf(tasks)) && Acyclic(PlanOf(tasks)) && FailedBodies(sub, second) == {} ==>
                  done !! SucceededTasks(sub, second) && done + SucceededTasks(sub, second) == Names(tasks))
  {
    var p := PlanOf(tasks);
    var done := SucceededTasks(p, first);
    DepsKeys(tasks);
    Retry.PlanOfStrip(tasks, done);
    forall n | n in Names(tasks) && n !in done
      ensures Meaning(PlanOf(Strip(tasks, done)), second, n) == Meaning(p, Retry.Reusing(done, second), n)
    {
      Retry.RetryFailedMeaning(p, first, second, n);
    }
    if Closed(p) && Acyclic(p) && FailedBodies(PlanOf(Strip(tasks, done)), second) == {} {
      Retry.EachSucceedsOnce(p, first, second);
    }
  }
}
