/** The projection: the rows of `runs` and `tasks` that the store folds events into. */
module Projection {
  import opened Sums
  import opened Wrappers

  datatype Status = Queued | Running | Succeeded | Failed | Canceled | Skipped
  {
    /** The statuses a cancel leaves alone. */
    predicate Terminal() {
      Succeeded? || Failed? || Canceled?
    }
  }

  datatype RunRow = RunRow(schedule: string, status: Status, source: string, workerID: string,
                           startedAt: Option<string>, endedAt: Option<string>, durationMs: Option<int>,
                           costUsd: real, taskCount: int, error: string)

  datatype TaskRow = TaskRow(status: Status, attempt: int, startedAt: Option<string>, endedAt: Option<string>,
                             durationMs: Option<int>, exitCode: Option<int>, costUsd: real, error: string, kind: string)

  datatype EntryType =
    | ScheduleStart
    | TaskStart
    | TaskSkipped
    | ShellRun
    | AgentRun
    | ScheduleComplete
    | Trigger
    | Unknown
    | Missing

  datatype Event = Event(at: string, entryType: EntryType, runID: string, schedule: string, task: string,
                         source: string, workerID: string, tasks: seq<string>, attempt: int, exit: Option<int>,
                         durationMs: Option<int>, costUsd: Option<real>, success: Option<bool>, error: string, taskCount: int)

  /** `tasks[r]` holds the task rows of run `r` by name; `ledger` the rows of the events table. */
  datatype Tables = Tables(runs: map<string, RunRow>, tasks: map<string, map<string, TaskRow>>,
                           ledger: seq<(string, string, EntryType, string)>)

  function TasksOf(db: Tables, r: string): map<string, TaskRow> {
    if r in db.tasks then db.tasks[r] else map[]
  }

  predicate HasTask(db: Tables, r: string, name: string) {
    name in TasksOf(db, r)
  }

  function PutTask(db: Tables, r: string, name: string, row: TaskRow): Tables {
    db.(tasks := db.tasks[r := TasksOf(db, r)[name := row]])
  }

  function Coalesce<T>(a: Option<T>, b: Option<T>): Option<T> {
    if a != None then a else b
  }

  // ----- The handlers -----

  function InsertQueued(rows: map<string, TaskRow>, names: seq<string>): map<string, TaskRow> {
    if names == [] then rows
    else
      var last := |names| - 1;
      var before := InsertQueued(rows, names[..last]);
      if names[last] in before then before else before[names[last] := TaskRow(Queued, 1, None, None, None, None, 0.0, "", "")]
  }

  /** schedule_start adds a queued row for each name that has none, and touches no other. */
  lemma {:induction false} QueuedKeeps(rows: map<string, TaskRow>, names: seq<string>)
    ensures forall n :: n in rows ==> n in InsertQueued(rows, names) && InsertQueued(rows, names)[n] == rows[n]
    ensures forall n :: n in InsertQueued(rows, names) <==> n in rows || n in names
    ensures forall n :: n in InsertQueued(rows, names) && n !in rows ==>
              InsertQueued(rows, names)[n] == TaskRow(Queued, 1, None, None, None, None, 0.0, "", "")
    decreases |names|
  {
    if names != [] {
      var last := |names| - 1;
      QueuedKeeps(rows, names[..last]);
      assert names == names[..last] + [names[last]];
    }
  }

  function ApplyScheduleStart(db: Tables, e: Event): Tables {
    var source := if e.source == "" then "cron" else e.source;
    var run :=
      if e.runID in db.runs then
        var row := db.runs[e.runID];
        row.(status := Running, startedAt := Some(e.at), taskCount := |e.tasks|,
             workerID := if e.workerID != "" then e.workerID else row.workerID)
      else
        RunRow(e.schedule, Running, source, e.workerID, Some(e.at), None, None, 0.0, |e.tasks|, "");
    db.(runs := db.runs[e.runID := run],
        tasks := db.tasks[e.runID := InsertQueued(TasksOf(db, e.runID), e.tasks)])
  }

  /** The row a task_start leaves. */
  function StartedRow(db: Tables, e: Event): TaskRow {
    var attempt := if e.attempt > 1 then e.attempt else 1;
    if HasTask(db, e.runID, e.task) then
      var row := TasksOf(db, e.runID)[e.task];
      row.(status := Running, attempt := attempt, startedAt := Coalesce(row.startedAt, Some(e.at)))
    else TaskRow(Running, attempt, Some(e.at), None, None, None, 0.0, "", "")
  }

  /** The row a task_skipped leaves. */
  function SkippedRow(db: Tables, e: Event): TaskRow {
    if HasTask(db, e.runID, e.task) then
      var row := TasksOf(db, e.runID)[e.task];
      row.(status := Skipped, startedAt := Coalesce(row.startedAt, Some(e.at)), endedAt := Some(e.at),
           durationMs := Some(0), error := e.error)
    else TaskRow(Skipped, 1, Some(e.at), Some(e.at), Some(0), None, 0.0, e.error, "")
  }

  function OutcomeOf(e: Event): Status {
    if e.success == Some(false) then Failed else Succeeded
  }

  function CostOf(e: Event): real {
    if e.costUsd == None then 0.0 else e.costUsd.value
  }

  /** The row a shell_run or agent_run leaves: a canceled row keeps its status and error. */
  function EndedRow(db: Tables, e: Event, kind: string): TaskRow {
    if HasTask(db, e.runID, e.task) then
      var row := TasksOf(db, e.runID)[e.task];
      row.(status := if row.status == Canceled then row.status else OutcomeOf(e),
           endedAt := Some(e.at), durationMs := Coalesce(e.durationMs, row.durationMs),
           exitCode := Coalesce(e.exit, row.exitCode), costUsd := CostOf(e),
           error := if row.status == Canceled then row.error else e.error, kind := kind)
    else TaskRow(OutcomeOf(e), 1, Some(e.at), Some(e.at), e.durationMs, e.exit, CostOf(e), e.error, kind)
  }

  function RollUp(db: Tables, e: Event): Tables {
    if CostOf(e) > 0.0 && e.runID in db.runs then
      db.(runs := db.runs[e.runID := db.runs[e.runID].(costUsd := db.runs[e.runID].costUsd + CostOf(e))])
    else db
  }

  function ApplyScheduleComplete(db: Tables, e: Event): Tables {
    if e.runID !in db.runs then db
    else
      var row := db.runs[e.runID];
      db.(runs := db.runs[e.runID := row.(
            status := if row.status == Canceled then row.status else OutcomeOf(e),
            endedAt := Some(e.at), durationMs := Coalesce(e.durationMs, row.durationMs),
            taskCount := if e.taskCount > 0 then e.taskCount else row.taskCount,
            error := if row.status == Canceled then row.error else e.error)])
  }

  function ApplyTrigger(db: Tables, e: Event): Tables {
    if e.runID in db.runs then db
    else
      var source := if e.source == "" then "http" else e.source;
      db.(runs := db.runs[e.runID := RunRow(e.schedule, Queued, source, "", None, None, None, 0.0, 0, "")])
  }

  // ----- One event -----

  /** A task row needs its run row: the foreign key refuses the write otherwise, and the transaction is undone. */
  predicate Refused(db: Tables, e: Event) {
    && (e.entryType.TaskStart? || e.entryType.TaskSkipped? || e.entryType.ShellRun? || e.entryType.AgentRun?)
    && !HasTask(db, e.runID, e.task)
    && e.runID !in db.runs
  }

  /** The event is recorded and folded in. */
  predicate Committed(db: Tables, e: Event) {
    e.runID != "" && e.entryType != Missing && !Refused(db, e)
  }

  function Fold(db: Tables, e: Event): Tables {
    match e.entryType
    case ScheduleStart => ApplyScheduleStart(db, e)
    case TaskStart => PutTask(db, e.runID, e.task, StartedRow(db, e))
    case TaskSkipped => PutTask(db, e.runID, e.task, SkippedRow(db, e))
    case ShellRun => RollUp(PutTask(db, e.runID, e.task, EndedRow(db, e, "shell")), e)
    case AgentRun => RollUp(PutTask(db, e.runID, e.task, EndedRow(db, e, "agent")), e)
    case ScheduleComplete => ApplyScheduleComplete(db, e)
    case Trigger => ApplyTrigger(db, e)
    case Unknown => db
    case Missing => db
  }

  function Apply(db: Tables, e: Event): Tables {
    if Committed(db, e) then
      Fold(db, e).(ledger := db.ledger + [(e.runID, e.task, e.entryType, e.at)])
    else db
  }

  function ApplyAll(db: Tables, events: seq<Event>): Tables
    decreases |events|
  {
    if events == [] then db else ApplyAll(Apply(db, events[0]), events[1..])
  }

  lemma {:induction false} ApplyLast(db: Tables, events: seq<Event>)
    requires events != []
    ensures ApplyAll(db, events) == Apply(ApplyAll(db, events[..|events| - 1]), events[|events| - 1])
    decreases |events|
  {
    if |events| > 1 {
      ApplyLast(Apply(db, events[0]), events[1..]);
      assert events[1..][..|events| - 2] == events[..|events| - 1][1..];
    }
  }

  const EMPTY := Tables(map[], map[], [])

  /** The names of a run's rows that say succeeded. */
  function SucceededRows(db: Tables, r: string): set<string> {
    set n | n in TasksOf(db, r) && TasksOf(db, r)[n].status == Succeeded
  }

  // ----- What each event writes, column by column -----

  /** The tables differ at most in the row of run `r`, the row of the task, and the ledger. */
  ghost predicate OnlyTask(db: Tables, after: Tables, r: string, name: string) {
    && (forall other :: other != r ==> TasksOf(after, other) == TasksOf(db, other))
    && (forall n :: n != name && n in TasksOf(after, r) <==> n != name && n in TasksOf(db, r))
    && (forall n :: n != name && n in TasksOf(db, r) ==> TasksOf(after, r)[n] == TasksOf(db, r)[n])
    && (forall other :: other != r ==> (other in after.runs <==> other in db.runs))
    && (forall other :: other != r && other in db.runs ==> after.runs[other] == db.runs[other])
  }

  lemma TaskStartWrites(db: Tables, e: Event)
    requires e.entryType.TaskStart? && e.runID != "" && e.runID in db.runs
    ensures var after, attempt := Apply(db, e), if e.attempt > 1 then e.attempt else 1;
            && OnlyTask(db, after, e.runID, e.task) && after.runs == db.runs && HasTask(after, e.runID, e.task)
            && var row := TasksOf(after, e.runID)[e.task];
               if e.task in TasksOf(db, e.runID) then
                 var was := TasksOf(db, e.runID)[e.task];
                 row == was.(status := Running, attempt := attempt,
                             startedAt := if was.startedAt == None then Some(e.at) else was.startedAt)
               else row == TaskRow(Running, attempt, Some(e.at), None, None, None, 0.0, "", "")
  {
  }

  lemma TaskSkippedWrites(db: Tables, e: Event)
    requires e.entryType.TaskSkipped? && e.runID != "" && e.runID in db.runs
    ensures var after := Apply(db, e);
            && OnlyTask(db, after, e.runID, e.task) && after.runs == db.runs && HasTask(after, e.runID, e.task)
            && var row := TasksOf(after, e.runID)[e.task];
               if e.task in TasksOf(db, e.runID) then
                 var was := TasksOf(db, e.runID)[e.task];
                 row == was.(status := Skipped, startedAt := if was.startedAt == None then Some(e.at) else was.startedAt,
                             endedAt := Some(e.at), durationMs := Some(0), error := e.error)
               else row == TaskRow(Skipped, 1, Some(e.at), Some(e.at), Some(0), None, 0.0, e.error, "")
  {
  }

  lemma TaskEndWrites(db: Tables, e: Event)
    requires (e.entryType.ShellRun? || e.entryType.AgentRun?) && e.runID != "" && e.runID in db.runs
    ensures HasTask(Apply(db, e), e.runID, e.task)
    ensures var row := TasksOf(Apply(db, e), e.runID)[e.task];
            var status := if e.success == Some(false) then Failed else Succeeded;
            var cost := if e.costUsd == None then 0.0 else e.costUsd.value;
            var kind := if e.entryType.ShellRun? then "shell" else "agent";
            if e.task in TasksOf(db, e.runID) then
              var was := TasksOf(db, e.runID)[e.task];
              row == was.(status := if was.status == Canceled then Canceled else status, endedAt := Some(e.at),
                          durationMs := if e.durationMs == None then was.durationMs else e.durationMs,
                          exitCode := if e.exit == None then was.exitCode else e.exit, costUsd := cost,
                          error := if was.status == Canceled then was.error else e.error, kind := kind)
            else row == TaskRow(status, 1, Some(e.at), Some(e.at), e.durationMs, e.exit, cost, e.error, kind)
  {
  }

  /** Besides, an end adds its cost to the run, and changes no other row. */
  lemma TaskEndAdds(db: Tables, e: Event)
    requires (e.entryType.ShellRun? || e.entryType.AgentRun?) && e.runID != "" && e.runID in db.runs
    ensures var after := Apply(db, e);
            var cost := if e.costUsd == None then 0.0 else e.costUsd.value;
            && OnlyTask(db, after, e.runID, e.task) && e.runID in after.runs
            && after.runs[e.runID] == db.runs[e.runID].(costUsd := db.runs[e.runID].costUsd + if cost > 0.0 then cost else 0.0)
  {
  }

  lemma ScheduleStartWrites(db: Tables, e: Event)
    requires e.entryType.ScheduleStart? && e.runID != ""
    ensures var after := Apply(db, e);
            && (forall other :: other != e.runID ==> TasksOf(after, other) == TasksOf(db, other))
            && after.runs == db.runs[e.runID := (
                 if e.runID in db.runs then
                   var was := db.runs[e.runID];
                   was.(status := Running, startedAt := Some(e.at), taskCount := |e.tasks|,
                        workerID := if e.workerID == "" then was.workerID else e.workerID)
                 else
                   RunRow(e.schedule, Running, if e.source == "" then "cron" else e.source, e.workerID, Some(e.at), None, None,
                          0.0, |e.tasks|, ""))]
    ensures var before, after := TasksOf(db, e.runID), TasksOf(Apply(db, e), e.runID);
            && (forall n :: n in after <==> n in before || n in e.tasks)
            && (forall n :: n in before ==> after[n] == before[n])
            && (forall n :: n in after && n !in before ==> after[n] == TaskRow(Queued, 1, None, None, None, None, 0.0, "", ""))
  {
    QueuedKeeps(TasksOf(db, e.runID), e.tasks);
  }

  lemma ScheduleCompleteWrites(db: Tables, e: Event)
    requires e.entryType.ScheduleComplete? && e.runID != ""
    ensures Apply(db, e).tasks == db.tasks
    ensures e.runID !in db.runs ==> Apply(db, e).runs == db.runs
    ensures e.runID in db.runs ==>
              var was := db.runs[e.runID];
              var status := if e.success == Some(false) then Failed else Succeeded;
              Apply(db, e).runs == db.runs[e.runID := was.(
                status := if was.status == Canceled then Canceled else status, endedAt := Some(e.at),
                durationMs := if e.durationMs == None then was.durationMs else e.durationMs,
                taskCount := if e.taskCount > 0 then e.taskCount else was.taskCount,
                error := if was.status == Canceled then was.error else e.error)]
  {
  }

  lemma TriggerWrites(db: Tables, e: Event)
    requires (e.entryType.Trigger? || e.entryType.Unknown?) && e.runID != ""
    ensures Apply(db, e).tasks == db.tasks
    ensures Apply(db, e).runs ==
              if e.entryType.Unknown? || e.runID in db.runs then db.runs
              else db.runs[e.runID := RunRow(e.schedule, Queued, if e.source == "" then "http" else e.source, "", None, None,
                                             None, 0.0, 0, "")]
  {
  }

  // ----- Every task row has its run row -----

  ghost predicate TasksHaveRuns(db: Tables) {
    forall r :: r in db.tasks && db.tasks[r] != map[] ==> r in db.runs
  }

  lemma ApplyKeepsRuns(db: Tables, e: Event)
    requires TasksHaveRuns(db)
    ensures TasksHaveRuns(Apply(db, e))
    ensures forall r :: r in db.runs ==> r in Apply(db, e).runs
  {
    if Committed(db, e) && HasTask(db, e.runID, e.task) {
      assert db.tasks[e.runID] != map[];
    }
  }

  // ----- Costs -----

  predicate IsTerminal(e: Event) {
    e.entryType.ShellRun? || e.entryType.AgentRun?
  }

  function Positive(x: real): real {
    if x > 0.0 then x else 0.0
  }

  /** What the committed terminal events of `r` cost together, retry attempts included. */
  function Spent(db: Tables, events: seq<Event>, r: string): real
    decreases |events|
  {
    if events == [] then 0.0
    else
      var e := events[0];
      (if Committed(db, e) && IsTerminal(e) && e.runID == r then Positive(CostOf(e)) else 0.0)
      + Spent(Apply(db, e), events[1..], r)
  }

  function RunCost(db: Tables, r: string): real {
    if r in db.runs then db.runs[r].costUsd else 0.0
  }

  lemma ApplyAddsCost(db: Tables, e: Event, r: string)
    requires TasksHaveRuns(db)
    ensures RunCost(Apply(db, e), r) ==
              RunCost(db, r) + if Committed(db, e) && IsTerminal(e) && e.runID == r then Positive(CostOf(e)) else 0.0
  {
    if Committed(db, e) && HasTask(db, e.runID, e.task) {
      assert db.tasks[e.runID] != map[];
    }
  }

  /** A run's cost is the sum over all its terminal events. */
  lemma {:induction false} CostIsSpent(db: Tables, events: seq<Event>, r: string)
    requires TasksHaveRuns(db)
    ensures RunCost(ApplyAll(db, events), r) == RunCost(db, r) + Spent(db, events, r)
    ensures TasksHaveRuns(ApplyAll(db, events))
    decreases |events|
  {
    if events != [] {
      ApplyAddsCost(db, events[0], r);
      ApplyKeepsRuns(db, events[0]);
      CostIsSpent(Apply(db, events[0]), events[1..], r);
    }
  }

  const TASK_COST: TaskRow -> real := (t: TaskRow) => Positive(t.costUsd)

  /** Each run has cost at least what its task rows, which keep only the last attempt, say. */
  ghost predicate CostCovers(db: Tables) {
    forall r :: r in db.runs ==> db.runs[r].costUsd >= Sum(TasksOf(db, r), TASK_COST)
  }

  lemma {:induction false} QueuedAddsNothing(rows: map<string, TaskRow>, names: seq<string>)
    ensures Sum(InsertQueued(rows, names), TASK_COST) == Sum(rows, TASK_COST)
    decreases |names|
  {
    if names != [] {
      var last := |names| - 1;
      var before := InsertQueued(rows, names[..last]);
      QueuedAddsNothing(rows, names[..last]);
      if names[last] !in before {
        SumAfter(before, TASK_COST, names[last], TaskRow(Queued, 1, None, None, None, None, 0.0, "", ""));
      }
    }
  }

  lemma PutCovers(db: Tables, e: Event, row: TaskRow)
    requires CostCovers(db) && TasksHaveRuns(db) && !Refused(db, e)
    requires row.costUsd == if HasTask(db, e.runID, e.task) then TasksOf(db, e.runID)[e.task].costUsd else 0.0
    ensures CostCovers(PutTask(db, e.runID, e.task, row))
  {
    SumAfter(TasksOf(db, e.runID), TASK_COST, e.task, row);
  }

  lemma EndCovers(db: Tables, e: Event, kind: string)
    requires CostCovers(db) && e.runID in db.runs
    ensures CostCovers(RollUp(PutTask(db, e.runID, e.task, EndedRow(db, e, kind)), e))
  {
    SumAfter(TasksOf(db, e.runID), TASK_COST, e.task, EndedRow(db, e, kind));
  }

  lemma FoldCovers(db: Tables, e: Event)
    requires CostCovers(db) && TasksHaveRuns(db) && Committed(db, e)
    ensures CostCovers(Fold(db, e))
  {
    if HasTask(db, e.runID, e.task) { assert db.tasks[e.runID] != map[]; }
    match e.entryType {
      case ScheduleStart =>
        QueuedAddsNothing(TasksOf(db, e.runID), e.tasks);
        NoTasksNoCost(db, e.runID);
      case TaskStart => PutCovers(db, e, StartedRow(db, e));
      case TaskSkipped => PutCovers(db, e, SkippedRow(db, e));
      case ShellRun => EndCovers(db, e, "shell");
      case AgentRun => EndCovers(db, e, "agent");
      case ScheduleComplete =>
      case Trigger => NoTasksNoCost(db, e.runID);
      case Unknown =>
    }
  }

  lemma NoTasksNoCost(db: Tables, r: string)
    requires TasksHaveRuns(db)
    ensures r !in db.runs ==> Sum(TasksOf(db, r), TASK_COST) == 0.0
  {
    assert r !in db.runs ==> TasksOf(db, r) == map[];
  }

  /** For every sequence of events, whatever their costs, a run has cost at least the sum of its tasks' costs, and
    * every task row has its run row. */
  lemma {:induction false} CostAlwaysCovers(db: Tables, events: seq<Event>)
    requires CostCovers(db) && TasksHaveRuns(db)
    ensures CostCovers(ApplyAll(db, events)) && TasksHaveRuns(ApplyAll(db, events))
    decreases |events|
  {
    if events != [] {
      var e := events[0];
      ApplyKeepsRuns(db, e);
      if Committed(db, e) { FoldCovers(db, e); }
      CostAlwaysCovers(Apply(db, e), events[1..]);
    }
  }

  // ----- Statuses -----

  /** A run row marked canceled keeps its status and error through every event but its own schedule_start. */
  lemma CanceledRunStays(db: Tables, e: Event, r: string)
    requires r in db.runs && db.runs[r].status == Canceled
    requires !(e.entryType.ScheduleStart? && e.runID == r)
    ensures r in Apply(db, e).runs
    ensures Apply(db, e).runs[r].status == Canceled && Apply(db, e).runs[r].error == db.runs[r].error
  {
  }

  lemma {:induction false} CanceledRunSticks(db: Tables, events: seq<Event>, r: string)
    requires r in db.runs && db.runs[r].status == Canceled
    requires forall e :: e in events ==> !(e.entryType.ScheduleStart? && e.runID == r)
    ensures r in ApplyAll(db, events).runs
    ensures ApplyAll(db, events).runs[r].status == Canceled && ApplyAll(db, events).runs[r].error == db.runs[r].error
    decreases |events|
  {
    if events != [] {
      assert events == [events[0]] + events[1..];
      CanceledRunStays(db, events[0], r);
      CanceledRunSticks(Apply(db, events[0]), events[1..], r);
    }
  }

  /** An event that launches or skips the task again. */
  predicate Restarts(e: Event, r: string, name: string) {
    (e.entryType.TaskStart? || e.entryType.TaskSkipped?) && e.runID == r && e.task == name
  }

  /** What becomes of an existing task row. */
  function RowAfter(db: Tables, e: Event, r: string, name: string): TaskRow
    requires HasTask(db, r, name)
  {
    if !Committed(db, e) || e.runID != r || e.task != name then TasksOf(db, r)[name]
    else match e.entryType
      case TaskStart => StartedRow(db, e)
      case TaskSkipped => SkippedRow(db, e)
      case ShellRun => EndedRow(db, e, "shell")
      case AgentRun => EndedRow(db, e, "agent")
      case _ => TasksOf(db, r)[name]
  }

  lemma RowAfterIs(db: Tables, e: Event, r: string, name: string)
    requires HasTask(db, r, name)
    ensures HasTask(Apply(db, e), r, name) && TasksOf(Apply(db, e), r)[name] == RowAfter(db, e, r, name)
  {
    if e.entryType.ScheduleStart? { QueuedKeeps(TasksOf(db, e.runID), e.tasks); }
  }

  /** A row that an event adds. */
  lemma FreshRow(db: Tables, e: Event, r: string, name: string)
    requires !HasTask(db, r, name) && HasTask(Apply(db, e), r, name)
    ensures e.runID == r
    ensures TasksOf(Apply(db, e), r)[name].status != Canceled
    ensures e.task != name || !(e.entryType.TaskStart? || e.entryType.TaskSkipped? || IsTerminal(e)) ==>
              TasksOf(Apply(db, e), r)[name].status == Queued
  {
    if e.entryType.ScheduleStart? { QueuedKeeps(TasksOf(db, e.runID), e.tasks); }
  }

  lemma CanceledTaskStays(db: Tables, e: Event, r: string, name: string)
    requires HasTask(db, r, name) && TasksOf(db, r)[name].status == Canceled
    requires !Restarts(e, r, name)
    ensures HasTask(Apply(db, e), r, name)
    ensures TasksOf(Apply(db, e), r)[name].status == Canceled
    ensures TasksOf(Apply(db, e), r)[name].error == TasksOf(db, r)[name].error
  {
    RowAfterIs(db, e, r, name);
  }

  /** A canceled task row keeps its status and error through every sequence that does not start or skip it. */
  lemma {:induction false} CanceledTaskSticks(db: Tables, events: seq<Event>, r: string, name: string)
    requires HasTask(db, r, name) && TasksOf(db, r)[name].status == Canceled
    requires forall e :: e in events ==> !Restarts(e, r, name)
    ensures HasTask(ApplyAll(db, events), r, name)
    ensures TasksOf(ApplyAll(db, events), r)[name].status == Canceled
    ensures TasksOf(ApplyAll(db, events), r)[name].error == TasksOf(db, r)[name].error
    decreases |events|
  {
    if events != [] {
      assert events == [events[0]] + events[1..];
      CanceledTaskStays(db, events[0], r, name);
      CanceledTaskSticks(Apply(db, events[0]), events[1..], r, name);
    }
  }

  /** The last start or completion of run `r`. */
  function RunLast(events: seq<Event>, r: string): Option<Event> {
    if events == [] then None
    else
      var e := events[|events| - 1];
      if e.runID == r && (e.entryType.ScheduleStart? || e.entryType.ScheduleComplete?) then Some(e)
      else RunLast(events[..|events| - 1], r)
  }

  /** The last start, skip or end of the task. */
  function TaskLast(events: seq<Event>, r: string, name: string): Option<Event> {
    if events == [] then None
    else
      var e := events[|events| - 1];
      if Restarts(e, r, name) || (IsTerminal(e) && e.runID == r && e.task == name) then Some(e)
      else TaskLast(events[..|events| - 1], r, name)
  }

  /** After any sequence of events a run is settled exactly when the last of its starts and completions is a
    * completion, or there were none and it was settled before. */
  lemma {:induction false} RunSettledIff(db: Tables, events: seq<Event>, r: string)
    requires r in db.runs && r != ""
    ensures r in ApplyAll(db, events).runs
    ensures ApplyAll(db, events).runs[r].status.Terminal() <==>
              if RunLast(events, r) == None then db.runs[r].status.Terminal()
              else RunLast(events, r).value.entryType.ScheduleComplete?
    decreases |events|
  {
    if events != [] {
      var front, e := events[..|events| - 1], events[|events| - 1];
      ApplyLast(db, events);
      RunSettledIff(db, front, r);
      RunRowKept(ApplyAll(db, front), e, r);
      RunStep(ApplyAll(db, front), e, r);
    }
  }

  lemma RunStep(db: Tables, e: Event, r: string)
    requires r in db.runs && r != ""
    ensures r in Apply(db, e).runs
    ensures Apply(db, e).runs[r].status.Terminal() <==>
              if e.runID == r && (e.entryType.ScheduleStart? || e.entryType.ScheduleComplete?) then e.entryType.ScheduleComplete?
              else db.runs[r].status.Terminal()
  {
  }

  /** And a task row exactly when the last of its starts, skips and ends is an end, or there were none and it was. */
  lemma {:induction false} TaskSettledIff(db: Tables, events: seq<Event>, r: string, name: string)
    requires HasTask(db, r, name) && r != ""
    ensures HasTask(ApplyAll(db, events), r, name)
    ensures TasksOf(ApplyAll(db, events), r)[name].status.Terminal() <==>
              if TaskLast(events, r, name) == None then TasksOf(db, r)[name].status.Terminal()
              else IsTerminal(TaskLast(events, r, name).value)
    decreases |events|
  {
    if events != [] {
      var front, e := events[..|events| - 1], events[|events| - 1];
      ApplyLast(db, events);
      TaskSettledIff(db, front, r, name);
      TaskStep(ApplyAll(db, front), e, r, name);
    }
  }

  lemma TaskStep(db: Tables, e: Event, r: string, name: string)
    requires HasTask(db, r, name) && r != ""
    ensures HasTask(Apply(db, e), r, name)
    ensures TasksOf(Apply(db, e), r)[name].status.Terminal() <==>
              if Restarts(e, r, name) || (IsTerminal(e) && e.runID == r && e.task == name) then IsTerminal(e)
              else TasksOf(db, r)[name].status.Terminal()
  {
    RowAfterIs(db, e, r, name);
  }

  /** The last end of the task. */
  function LastEnd(events: seq<Event>, r: string, name: string): Option<Event> {
    if events == [] then None
    else
      var e := events[|events| - 1];
      if IsTerminal(e) && e.runID == r && e.task == name then Some(e) else LastEnd(events[..|events| - 1], r, name)
  }

  /** A task's cost is what its last end says, nothing if that says nothing, and its kind and end are of that too. */
  lemma {:induction false} TaskCostIs(db: Tables, events: seq<Event>, r: string, name: string)
    requires HasTask(db, r, name) && r != "" && r in db.runs
    ensures HasTask(ApplyAll(db, events), r, name) && r in ApplyAll(db, events).runs
    ensures var row, last := TasksOf(ApplyAll(db, events), r)[name], LastEnd(events, r, name);
            if last == None then row.costUsd == TasksOf(db, r)[name].costUsd && row.kind == TasksOf(db, r)[name].kind
            else
              && row.costUsd == (if last.value.costUsd == None then 0.0 else last.value.costUsd.value)
              && row.kind == (if last.value.entryType.ShellRun? then "shell" else "agent")
    decreases |events|
  {
    if events != [] {
      var front, e := events[..|events| - 1], events[|events| - 1];
      ApplyLast(db, events);
      TaskCostIs(db, front, r, name);
      RowAfterIs(ApplyAll(db, front), e, r, name);
      RunRowKept(ApplyAll(db, front), e, r);
    }
  }

  // ----- What events never take back -----

  /** A task row's start, once known, is the first one, and an exit code and duration once known stay known. */
  ghost predicate TaskKept(a: TaskRow, b: TaskRow) {
    && (a.startedAt != None ==> b.startedAt == a.startedAt)
    && (a.exitCode != None ==> b.exitCode != None)
    && (a.durationMs != None ==> b.durationMs != None)
  }

  /** A run row stays the same run's: schedule and source are the first ones, a worker once known stays known, and
    * the cost never falls. */
  ghost predicate RunKept(a: RunRow, b: RunRow) {
    && b.schedule == a.schedule && b.source == a.source
    && (a.workerID != "" ==> b.workerID != "")
    && (a.startedAt != None ==> b.startedAt != None)
    && b.costUsd >= a.costUsd
  }

  lemma RunRowKept(db: Tables, e: Event, r: string)
    requires r in db.runs
    ensures r in Apply(db, e).runs && RunKept(db.runs[r], Apply(db, e).runs[r])
  {
  }

  /** Over every sequence of events rows are never lost, and keep what they once knew. */
  lemma {:induction false} NothingTakenBack(db: Tables, events: seq<Event>, r: string, name: string)
    ensures HasTask(db, r, name) ==>
              HasTask(ApplyAll(db, events), r, name) && TaskKept(TasksOf(db, r)[name], TasksOf(ApplyAll(db, events), r)[name])
    ensures r in db.runs ==> r in ApplyAll(db, events).runs && RunKept(db.runs[r], ApplyAll(db, events).runs[r])
    decreases |events|
  {
    if events != [] {
      if HasTask(db, r, name) { RowAfterIs(db, events[0], r, name); }
      if r in db.runs { RunRowKept(db, events[0], r); }
      NothingTakenBack(Apply(db, events[0]), events[1..], r, name);
    }
  }

  predicate NeedsRun(e: Event) {
    e.entryType.TaskStart? || e.entryType.TaskSkipped? || IsTerminal(e)
  }

  predicate OpensRun(e: Event) {
    e.runID != "" && (e.entryType.ScheduleStart? || e.entryType.Trigger?)
  }

  /** Whether an event is recorded, told from the runs started or triggered before it: it has a run id and a type, and a
    * task event one of these runs. */
  predicate Counts(known: set<string>, e: Event) {
    e.runID != "" && e.entryType != Missing && (NeedsRun(e) ==> e.runID in known)
  }

  function KnownAfter(known: set<string>, e: Event): set<string> {
    if OpensRun(e) then known + {e.runID} else known
  }

  function LedgerRow(known: set<string>, e: Event): seq<(string, string, EntryType, string)> {
    if Counts(known, e) then [(e.runID, e.task, e.entryType, e.at)] else []
  }

  /** The ledger that a sequence of events leaves, told from the events alone. */
  function Recorded(known: set<string>, events: seq<Event>): seq<(string, string, EntryType, string)>
    decreases |events|
  {
    if events == [] then [] else LedgerRow(known, events[0]) + Recorded(KnownAfter(known, events[0]), events[1..])
  }

  lemma RecordedOne(db: Tables, e: Event)
    requires TasksHaveRuns(db)
    ensures Committed(db, e) <==> Counts(db.runs.Keys, e)
    ensures !Counts(db.runs.Keys, e) ==> Apply(db, e) == db
    ensures Apply(db, e).runs.Keys == KnownAfter(db.runs.Keys, e)
    ensures Apply(db, e).ledger == db.ledger + LedgerRow(db.runs.Keys, e)
  {
    if HasTask(db, e.runID, e.task) { assert db.tasks[e.runID] != map[]; }
  }

  /** The ledger has one row for each event that counts, in order, and no other. */
  lemma {:induction false} LedgerRecords(db: Tables, events: seq<Event>)
    requires TasksHaveRuns(db)
    ensures ApplyAll(db, events).ledger == db.ledger + Recorded(db.runs.Keys, events)
    decreases |events|
  {
    if events != [] {
      var next := Apply(db, events[0]);
      RecordedOne(db, events[0]);
      ApplyKeepsRuns(db, events[0]);
      LedgerRecords(next, events[1..]);
      LedgerLine(db.ledger, LedgerRow(db.runs.Keys, events[0]), Recorded(next.runs.Keys, events[1..]));
    }
  }

  lemma LedgerLine<T>(a: seq<T>, b: seq<T>, c: seq<T>)
    ensures (a + b) + c == a + (b + c)
  {
  }

  // ----- Cancel -----

  function CanceledTask(row: TaskRow, at: string): TaskRow {
    if row.status.Terminal() then row else row.(status := Canceled, endedAt := Some(at))
  }

  /** The projection half of `Cancel`: the run row and every task row of the run that is not settled. */
  function CancelRun(db: Tables, r: string, at: string): Tables {
    var runs :=
      if r in db.runs && !db.runs[r].status.Terminal() then
        var row := db.runs[r];
        db.runs[r := row.(status := Canceled, endedAt := Some(at), error := if row.error != "" then row.error else "canceled")]
      else db.runs;
    db.(runs := runs,
        tasks := db.tasks[r := map n | n in TasksOf(db, r) :: CanceledTask(TasksOf(db, r)[n], at)])
  }

  /** After a cancel every task row of the run is succeeded, failed or canceled; no row was added or lost, settled
    * rows are as they were, and so is every other run. */
  lemma CancelSettlesAll(db: Tables, r: string, at: string)
    ensures TasksOf(CancelRun(db, r, at), r).Keys == TasksOf(db, r).Keys
    ensures forall n :: HasTask(db, r, n) ==> TasksOf(CancelRun(db, r, at), r)[n].status.Terminal()
    ensures forall n :: HasTask(db, r, n) && TasksOf(db, r)[n].status.Terminal() ==>
              TasksOf(CancelRun(db, r, at), r)[n] == TasksOf(db, r)[n]
    ensures forall other :: other != r ==> TasksOf(CancelRun(db, r, at), other) == TasksOf(db, other)
    ensures r in db.runs ==> CancelRun(db, r, at).runs[r].status.Terminal()
  {
  }

  /** What a cancel writes: an unsettled run and its unsettled tasks become canceled, with their ends and the run's error;
    * every other column, row and table stays as it was. */
  lemma CancelWrites(db: Tables, r: string, at: string)
    ensures var after := CancelRun(db, r, at);
            && after.runs.Keys == db.runs.Keys && after.ledger == db.ledger
            && (forall other :: other in db.runs && other != r ==> after.runs[other] == db.runs[other])
            && (r in db.runs && db.runs[r].status in {Succeeded, Failed, Canceled} ==> after.runs[r] == db.runs[r])
            && (r in db.runs && db.runs[r].status !in {Succeeded, Failed, Canceled} ==>
                  after.runs[r] == db.runs[r].(status := Canceled, endedAt := Some(at),
                                               error := if db.runs[r].error == "" then "canceled" else db.runs[r].error))
    ensures var before, after := TasksOf(db, r), TasksOf(CancelRun(db, r, at), r);
            && after.Keys == before.Keys
            && (forall n :: n in before && before[n].status in {Succeeded, Failed, Canceled} ==> after[n] == before[n])
            && (forall n :: n in before && before[n].status !in {Succeeded, Failed, Canceled} ==>
                  after[n] == before[n].(status := Canceled, endedAt := Some(at)))
    ensures forall other :: other != r ==> TasksOf(CancelRun(db, r, at), other) == TasksOf(db, other)
  {
  }

  /** Canceled is what a canceled run is, and stays, with its error known, through every sequence of events without a
    * start of it. */
  lemma CanceledRunStaysCanceled(db: Tables, r: string, at: string, events: seq<Event>)
    requires r in db.runs && db.runs[r].status != Succeeded && db.runs[r].status != Failed
    requires forall e :: e in events ==> !(e.entryType.ScheduleStart? && e.runID == r)
    ensures var after := ApplyAll(CancelRun(db, r, at), events);
            && r in after.runs && after.runs[r].status == Canceled
            && (db.runs[r].status != Canceled ==>
                  after.runs[r].error == if db.runs[r].error == "" then "canceled" else db.runs[r].error)
            && (db.runs[r].status == Canceled ==> after.runs[r].error == db.runs[r].error)
  {
    CancelWrites(db, r, at);
    CanceledRunSticks(CancelRun(db, r, at), events, r);
  }

  /** And so for each task of it that had not succeeded or failed, through every sequence that neither starts nor skips
    * the task. */
  lemma CanceledTaskStaysCanceled(db: Tables, r: string, at: string, events: seq<Event>, name: string)
    requires HasTask(db, r, name) && TasksOf(db, r)[name].status != Succeeded && TasksOf(db, r)[name].status != Failed
    requires forall e :: e in events ==> !Restarts(e, r, name)
    ensures var after := ApplyAll(CancelRun(db, r, at), events);
            && HasTask(after, r, name) && TasksOf(after, r)[name].status == Canceled
            && TasksOf(after, r)[name].error == TasksOf(db, r)[name].error
  {
    CancelWrites(db, r, at);
    CanceledTaskSticks(CancelRun(db, r, at), events, r, name);
  }

  /** A cancel takes nothing out of a later retry, and adds nothing to what it skips. */
  lemma CancelTakesNothing(db: Tables, r: string, at: string)
    ensures SucceededRows(CancelRun(db, r, at), r) == SucceededRows(db, r)
  {
    CancelWrites(db, r, at);
  }

  /** Nothing of the run is left to settle. */
  ghost predicate AllSettled(db: Tables, r: string) {
    && r in db.runs && db.runs[r].status.Terminal()
    && forall n :: HasTask(db, r, n) ==> TasksOf(db, r)[n].status.Terminal()
  }

  /** An event that starts the run, or starts or skips a task of it. */
  predicate Revives(e: Event, r: string) {
    e.runID == r && (e.entryType.ScheduleStart? || e.entryType.TaskStart? || e.entryType.TaskSkipped?)
  }

  lemma AllStaysSettled(db: Tables, e: Event, r: string)
    requires r != "" && AllSettled(db, r) && !Revives(e, r)
    ensures AllSettled(Apply(db, e), r)
  {
    RunStep(db, e, r);
    forall n | HasTask(Apply(db, e), r, n) ensures TasksOf(Apply(db, e), r)[n].status.Terminal() {
      if HasTask(db, r, n) { TaskStep(db, e, r, n); } else { NewRowSettled(db, e, r, n); }
    }
  }

  lemma NewRowSettled(db: Tables, e: Event, r: string, n: string)
    requires !HasTask(db, r, n) && HasTask(Apply(db, e), r, n) && !Revives(e, r)
    ensures TasksOf(Apply(db, e), r)[n].status.Terminal()
  {
  }

  lemma {:induction false} EventsLeaveSettled(db: Tables, events: seq<Event>, r: string)
    requires r != "" && AllSettled(db, r) && forall e :: e in events ==> !Revives(e, r)
    ensures AllSettled(ApplyAll(db, events), r)
    decreases |events|
  {
    if events != [] {
      assert events == [events[0]] + events[1..];
      AllStaysSettled(db, events[0], r);
      EventsLeaveSettled(Apply(db, events[0]), events[1..], r);
    }
  }

  /** A canceled run is over: the run and every task row of it are settled, and stay so through every sequence of events
    * that starts or skips nothing in it. */
  lemma CanceledRunIsOver(db: Tables, r: string, at: string, events: seq<Event>)
    requires r != "" && r in db.runs && forall e :: e in events ==> !Revives(e, r)
    ensures AllSettled(ApplyAll(CancelRun(db, r, at), events), r)
  {
    CancelSettlesAll(db, r, at);
    EventsLeaveSettled(CancelRun(db, r, at), events, r);
  }
}
