/** The store: the tables as fields, and the methods that write them, each one atomic step under the mutex.
  *
  * Every method is tied to the row functions of `Queue`, `Projection`, `Cancel` and `Narrow`, about which the
  * results over whole runs are proved.
  */
module Store {
  import C = Cancel
  import P = Projection
  import Q = Queue
  import opened Downstream
  import opened Narrow
  import opened Rfc3339
  import opened Schedule
  import opened Wrappers

  datatype ClaimedJob = ClaimedJob(runID: string, schedule: string, payload: Payload, enqueuedAt: string,
                                   claimExpires: string, attempt: nat)

  datatype CancelResult = CancelResult(workerID: string, wasPending: bool, wasClaimed: bool, wasUnknown: bool)

  datatype CancelTaskResult = CancelTaskResult(workerID: string, wasClaimed: bool, canceledTasks: seq<string>,
                                               skippedTerminal: seq<string>)

  datatype RetryResult = RetryResult(schedule: string, skippedTasks: seq<string>)

  /** A schedule of the loaded configuration. */
  datatype Loaded = Loaded(name: string, tasks: seq<Task>)

  /** The tasks of the first loaded schedule of that name. */
  function LoadedTasks(schedules: seq<Loaded>, name: string): seq<Task> {
    if schedules == [] then []
    else if schedules[0].name == name then schedules[0].tasks
    else LoadedTasks(schedules[1..], name)
  }

  /** It is the first of that name, and there are no tasks when there is none. */
  lemma {:induction false} LoadedIsFirst(schedules: seq<Loaded>, name: string)
    ensures (forall s :: s in schedules ==> s.name != name) ==> LoadedTasks(schedules, name) == []
    ensures forall i :: (0 <= i < |schedules| && schedules[i].name == name && forall j :: 0 <= j < i ==> schedules[j].name != name) ==>
              LoadedTasks(schedules, name) == schedules[i].tasks
    decreases |schedules|
  {
    if schedules != [] && schedules[0].name != name {
      var rest := schedules[1..];
      LoadedIsFirst(rest, name);
      assert forall s :: s in rest ==> s in schedules;
      forall i | 0 <= i < |schedules| && schedules[i].name == name && forall j :: 0 <= j < i ==> schedules[j].name != name
        ensures LoadedTasks(schedules, name) == schedules[i].tasks
      {
        assert rest[i - 1].name == name && forall j :: 0 <= j < i - 1 ==> rest[j] == schedules[j + 1];
      }
    }
  }

  lemma LessThanOldest(x: string, picked: string, other: string)
    requires TextLess(x, picked) && !TextLess(other, picked)
    ensures !TextLess(other, x)
  {
    if TextLess(other, x) { TextLessOn(other, x, picked); }
  }

  class Store {
    /** How the clock is written. */
    const stamp: nat -> string

    var jobs: map<string, Q.Job>
    var workers: map<string, Q.Worker>
    var runs: map<string, P.RunRow>
    var tasks: map<string, map<string, P.TaskRow>>
    var ledger: seq<(string, string, P.EntryType, string)>

    constructor ()
      ensures Jobs() == Q.EMPTY && Rows() == P.EMPTY && stamp == Format
    {
      stamp := Format;
      jobs, workers, runs, tasks, ledger := map[], map[], map[], map[], [];
    }

    function Jobs(): Q.Tables
      reads this
    {
      Q.Tables(jobs, workers)
    }

    function Rows(): P.Tables
      reads this
    {
      P.Tables(runs, tasks, ledger)
    }

    /** A call of the queue as it comes at `now`. */
    function Arriving(now: nat, call: Q.Call): Q.Timed {
      Q.Timed(now, call, stamp(now), stamp(now + Q.Visibility(call)))
    }

    // ----- The queue -----

    /** INSERT INTO jobs ... ON CONFLICT DO NOTHING. */
    method Insert(runID: string, schedule: string, payload: Payload, now: nat)
      modifies `jobs
      ensures Jobs() == Q.Step(old(Jobs()), Arriving(now, Q.Enqueue(runID, schedule, payload)))
    {
      if runID !in jobs {
        jobs := jobs[runID := Q.Job(schedule, payload, Q.Pending, stamp(now), None, "", None, 0, "", None)];
      }
    }

    method Enqueue(runID: string, schedule: string, payload: Payload, now: nat) returns (r: Result<()>)
      modifies `jobs
      ensures r.Ok? <==> runID != ""
      ensures r.Ok? ==> Jobs() == Q.Step(old(Jobs()), Arriving(now, Q.Enqueue(runID, schedule, payload)))
      ensures r.Err? ==> Jobs() == old(Jobs())
    {
      if runID == "" { return Err("Enqueue: empty run_id"); }
      Insert(runID, schedule, payload, now);
      r := Ok(());
    }

    /** SELECT ... WHERE status = 'pending' ORDER BY enqueued_at ASC LIMIT 1. */
    method SelectOldest() returns (picked: Option<string>)
      ensures picked == None ==> forall r :: r in jobs ==> !Q.IsPending(Jobs(), r)
      ensures picked != None ==> Q.Oldest(Jobs(), picked.value)
    {
      picked := None;
      var rest := jobs.Keys;
      while rest != {}
        invariant rest <= jobs.Keys
        invariant picked == None ==> forall r :: r in jobs && r !in rest ==> !Q.IsPending(Jobs(), r)
        invariant picked != None ==> Q.IsPending(Jobs(), picked.value)
        invariant picked != None ==> forall r :: r in jobs && r !in rest && Q.IsPending(Jobs(), r) ==>
                    !TextLess(jobs[r].enqueuedAt, jobs[picked.value].enqueuedAt)
      {
        var runID :| runID in rest;
        rest := rest - {runID};
        if jobs[runID].status == Q.Pending {
          if picked == None {
            NotBoth(jobs[runID].enqueuedAt, jobs[runID].enqueuedAt);
            picked := Some(runID);
          } else if TextLess(jobs[runID].enqueuedAt, jobs[picked.value].enqueuedAt) {
            NotBoth(jobs[runID].enqueuedAt, jobs[runID].enqueuedAt);
            forall r | r in jobs && r !in rest && r != runID && Q.IsPending(Jobs(), r)
              ensures !TextLess(jobs[r].enqueuedAt, jobs[runID].enqueuedAt)
            {
              LessThanOldest(jobs[runID].enqueuedAt, jobs[picked.value].enqueuedAt, jobs[r].enqueuedAt);
            }
            picked := Some(runID);
          }
        }
      }
    }

    /** An oldest pending job, or no job exactly when none is pending. */
    method Claim(workerID: string, visibility: nat, now: nat) returns (r: Result<ClaimedJob>)
      modifies `jobs, `workers
      ensures r.Ok? <==> workerID != "" && exists id :: id in old(jobs) && old(jobs)[id].status == Q.Pending
      ensures r.Ok? ==>
                var call := Q.Claim(workerID, visibility, Some(r.value.runID));
                && Q.Possible(old(Jobs()), call) && Jobs() == Q.Step(old(Jobs()), Arriving(now, call))
                && var j := jobs[r.value.runID];
                   r.value == ClaimedJob(r.value.runID, j.schedule, j.payload, j.enqueuedAt, stamp(now + visibility), j.attempt)
      ensures r.Err? ==> Jobs() == old(Jobs())
    {
      if workerID == "" { return Err("Claim: empty worker_id"); }
      var at, expires := stamp(now), stamp(now + visibility);
      var picked := SelectOldest();
      if picked == None { return Err("no jobs"); }
      var runID := picked.value;
      assert Q.IsPending(Jobs(), runID);
      var j := jobs[runID];
      j := j.(status := Q.Claimed, claimedBy := workerID, claimedAt := Some(at), claimExpiresAt := Some(expires),
              attempt := j.attempt + 1);
      jobs := jobs[runID := j];
      if workerID in workers {
        var w := workers[workerID];
        workers := workers[workerID := w.(lastSeen := at, currentRun := runID, claimedAt := at, runsTotal := w.runsTotal + 1)];
      } else {
        workers := workers[workerID := Q.Worker(at, runID, at, 1, 0)];
      }
      r := Ok(ClaimedJob(runID, j.schedule, j.payload, j.enqueuedAt, expires, j.attempt));
    }

    method Ack(runID: string, workerID: string, success: bool, message: string, now: nat) returns (r: Result<()>)
      modifies `jobs, `workers
      ensures r.Ok? <==> runID != ""
      ensures r.Ok? ==> Jobs() == Q.Step(old(Jobs()), Arriving(now, Q.Ack(runID, workerID, success, message)))
      ensures r.Err? ==> Jobs() == old(Jobs())
    {
      if runID == "" { return Err("Ack: empty run_id"); }
      var at := stamp(now);
      if runID in jobs && jobs[runID].claimedBy == workerID && jobs[runID].status == Q.Claimed {
        jobs := jobs[runID := jobs[runID].(status := if success then Q.Done else Q.Failed, completedAt := Some(at),
                                           lastError := message, claimExpiresAt := None)];
        var failedInc := if success then 0 else 1;
        if workerID in workers {
          var w := workers[workerID];
          workers := workers[workerID := w.(lastSeen := at, currentRun := "", runsFailed := w.runsFailed + failedInc)];
        }
      }
      r := Ok(());
    }

    /** Refused, with nothing written, unless the worker still owns the job. */
    method Heartbeat(runID: string, workerID: string, visibility: nat, now: nat) returns (r: Result<()>)
      modifies `jobs, `workers
      ensures r.Ok? <==> runID != "" && workerID != "" && runID in old(jobs)
                         && old(jobs)[runID].status == Q.Claimed && old(jobs)[runID].claimedBy == workerID
      ensures r.Ok? ==> Jobs() == Q.Step(old(Jobs()), Arriving(now, Q.Heartbeat(runID, workerID, visibility)))
      ensures r.Err? ==> Jobs() == old(Jobs())
    {
      if runID == "" || workerID == "" { return Err("Heartbeat: empty run_id or worker_id"); }
      if !(runID in jobs && jobs[runID].claimedBy == workerID && jobs[runID].status == Q.Claimed) {
        return Err("Heartbeat: no matching claimed job (lost ownership?)");
      }
      jobs := jobs[runID := jobs[runID].(claimExpiresAt := Some(stamp(now + visibility)))];
      if workerID in workers {
        workers := workers[workerID := workers[workerID].(lastSeen := stamp(now))];
      }
      r := Ok(());
    }

    /** Returns how many rows were moved back to pending. */
    method ReapExpired(now: nat) returns (moved: nat, ghost freed: set<string>)
      modifies `jobs
      ensures Jobs() == Q.Step(old(Jobs()), Arriving(now, Q.Reap))
      ensures forall r ::
        r in freed <==> (r in old(jobs) && old(jobs)[r].status == Q.Claimed && old(jobs)[r].claimExpiresAt != None
                         && TextLess(old(jobs)[r].claimExpiresAt.value, stamp(now)))
      ensures moved == |freed|
    {
      var kept;
      kept, moved, freed := ReapJobs(jobs, stamp(now));
      jobs := kept;
    }

    // ----- Cancel -----

    /** Refused exactly for settled jobs and an empty id; a run without a job has its rows canceled all the same. */
    method Cancel(runID: string, now: nat) returns (r: Result<CancelResult>)
      modifies `jobs, `runs, `tasks
      ensures r.Ok? <==> runID != "" && !(runID in old(jobs) && old(jobs)[runID].status in {Q.Done, Q.Failed, Q.Canceled})
      ensures r.Ok? ==> Jobs() == Q.Step(old(Jobs()), Arriving(now, Q.Cancel(runID)))
      ensures r.Ok? ==> Rows() == P.CancelRun(old(Rows()), runID, stamp(now))
      ensures r.Ok? && runID in old(runs) && old(runs)[runID].status !in {P.Succeeded, P.Failed} ==>
                runID in runs && runs[runID].status == P.Canceled
      ensures r.Ok? ==> (r.value.wasPending <==> runID in old(jobs) && old(jobs)[runID].status == Q.Pending)
      ensures r.Ok? ==> (r.value.wasClaimed <==> runID in old(jobs) && old(jobs)[runID].status == Q.Claimed)
      ensures r.Ok? ==> r.value.workerID == if r.value.wasClaimed then old(jobs)[runID].claimedBy else ""
      ensures r.Ok? ==> (r.value.wasUnknown <==> runID !in old(jobs))
      ensures r.Err? ==> Jobs() == old(Jobs()) && Rows() == old(Rows())
    {
      if runID == "" { return Err("Cancel: empty run_id"); }
      var at := stamp(now);
      var res := CancelResult("", false, false, false);
      if runID !in jobs {
        res := res.(wasUnknown := true);
      } else {
        var j := jobs[runID];
        match j.status {
          case Pending =>
            res := res.(wasPending := true);
            jobs := jobs[runID := j.(status := Q.Canceled, completedAt := Some(at), lastError := "canceled")];
          case Claimed =>
            res := res.(wasClaimed := true, workerID := j.claimedBy);
            jobs := jobs[runID := j.(status := Q.Canceled, completedAt := Some(at), lastError := "canceled",
                                     claimExpiresAt := None)];
          case _ =>
            return Err("run is not cancelable");
        }
      }
      P.CancelWrites(Rows(), runID, at);
      CancelRows(runID, at);
      r := Ok(res);
    }

    method CancelRows(runID: string, at: string)
      modifies `runs, `tasks
      ensures Rows() == P.CancelRun(old(Rows()), runID, at)
    {
      ghost var before := Rows();
      if runID in runs && !runs[runID].status.Terminal() {
        var row := runs[runID];
        runs := runs[runID := row.(status := P.Canceled, endedAt := Some(at),
                                   error := if row.error == "" then "canceled" else row.error)];
      }
      var rows := P.TasksOf(Rows(), runID);
      ghost var was := rows;
      var rest := rows.Keys;
      while rest != {}
        invariant rest <= was.Keys && rows.Keys == was.Keys
        invariant forall n :: n in was ==> rows[n] == if n in rest then was[n] else P.CanceledTask(was[n], at)
      {
        var n :| n in rest;
        rest := rest - {n};
        if !rows[n].status.Terminal() {
          rows := rows[n := rows[n].(status := P.Canceled, endedAt := Some(at))];
        }
      }
      assert rows == map n | n in was :: P.CanceledTask(was[n], at);
      tasks := tasks[runID := rows];
    }

    /** What a cancel of one task writes and reports. */
    ghost predicate CanceledTargets(before: P.Tables, runID: string, targets: seq<string>, at: string, res: CancelTaskResult)
      reads this
    {
      && Rows() == C.CancelTasks(before, runID, targets, at)
      && res.canceledTasks == C.Pick(P.TasksOf(before, runID), targets, false)
      && res.skippedTerminal == C.Pick(P.TasksOf(before, runID), targets, true)
    }

    /** The head must have a row that is not settled; then the head and the cascade are canceled, a row being made
      * where there is none, and each target is reported in one of the two lists. */
    method CancelTask(runID: string, taskName: string, cascade: seq<string>, now: nat) returns (r: Result<CancelTaskResult>)
      modifies `tasks
      ensures r.Ok? <==> runID != "" && taskName != "" && P.HasTask(old(Rows()), runID, taskName)
                         && P.TasksOf(old(Rows()), runID)[taskName].status !in {P.Succeeded, P.Failed, P.Canceled}
      ensures r.Ok? ==> CanceledTargets(old(Rows()), runID, C.Targets([taskName] + cascade), stamp(now), r.value)
      ensures r.Ok? ==> (r.value.wasClaimed <==> runID in jobs && jobs[runID].status == Q.Claimed)
      ensures r.Ok? ==> r.value.workerID == if r.value.wasClaimed then jobs[runID].claimedBy else ""
      ensures C.OnlyUnsettled(old(Rows()), Rows(), runID, [taskName] + cascade)
      ensures r.Err? ==> Rows() == old(Rows())
    {
      if runID == "" { return Err("CancelTask: empty run_id"); }
      if taskName == "" { return Err("CancelTask: empty task name"); }
      var wasClaimed := runID in jobs && jobs[runID].status == Q.Claimed;
      var workerID := if wasClaimed then jobs[runID].claimedBy else "";
      var targets := CollectTargets([taskName] + cascade);
      if !P.HasTask(Rows(), runID, taskName) { return Err("CancelTask: task not found in run"); }
      if P.TasksOf(Rows(), runID)[taskName].status.Terminal() { return Err("task is already terminal"); }
      C.TargetsAre([taskName] + cascade);
      C.CancelTasksOnly(Rows(), runID, [taskName] + cascade, stamp(now));
      var rows, canceled, settled := MarkTargets(P.TasksOf(Rows(), runID), targets, stamp(now));
      tasks := tasks[runID := rows];
      r := Ok(CancelTaskResult(workerID, wasClaimed, canceled, settled));
    }

    /** The (run, task) row is canceled; an empty name or a missing row is not. */
    method IsTaskCanceledInRun(runID: string, taskName: string) returns (canceled: bool)
      ensures canceled <==> C.IsTaskCanceled(Rows(), runID, taskName)
      ensures canceled <==> runID != "" && taskName != "" && runID in tasks && taskName in tasks[runID]
                            && tasks[runID][taskName].status == P.Canceled
    {
      if runID == "" || taskName == "" { return false; }
      var rows := P.TasksOf(Rows(), runID);
      canceled := taskName in rows && rows[taskName].status == P.Canceled;
    }

    // ----- Events -----

    /** An upsert of one task row, refused by the foreign key when neither the row nor the run exists. */
    method PutTask(runID: string, name: string, row: P.TaskRow) returns (ok: bool)
      modifies `tasks
      ensures ok <==> P.HasTask(old(Rows()), runID, name) || runID in runs
      ensures Rows() == if ok then P.PutTask(old(Rows()), runID, name, row) else old(Rows())
    {
      var rows := P.TasksOf(Rows(), runID);
      ok := name in rows || runID in runs;
      if ok { tasks := tasks[runID := rows[name := row]]; }
    }

    method ApplyScheduleStart(e: P.Event)
      modifies `runs, `tasks
      ensures Rows() == P.ApplyScheduleStart(old(Rows()), e)
    {
      if e.runID in runs {
        var row := runs[e.runID];
        row := row.(status := P.Running, startedAt := Some(e.at), taskCount := |e.tasks|);
        if e.workerID != "" { row := row.(workerID := e.workerID); }
        runs := runs[e.runID := row];
      } else {
        var source := e.source;
        if source == "" { source := "cron"; }
        runs := runs[e.runID := P.RunRow(e.schedule, P.Running, source, e.workerID, Some(e.at), None, None, 0.0, |e.tasks|, "")];
      }
      var rows := InsertQueued(P.TasksOf(Rows(), e.runID), e.tasks);
      tasks := tasks[e.runID := rows];
    }

    method ApplyTaskStart(e: P.Event) returns (ok: bool)
      modifies `tasks
      ensures ok <==> P.HasTask(old(Rows()), e.runID, e.task) || e.runID in runs
      ensures Rows() == if ok then P.PutTask(old(Rows()), e.runID, e.task, P.StartedRow(old(Rows()), e)) else old(Rows())
    {
      var attempt := e.attempt;
      if attempt < 1 { attempt := 1; }
      var rows := P.TasksOf(Rows(), e.runID);
      if e.task in rows {
        var row := rows[e.task];
        row := row.(status := P.Running, attempt := attempt);
        if row.startedAt == None { row := row.(startedAt := Some(e.at)); }
        ok := PutTask(e.runID, e.task, row);
      } else {
        ok := PutTask(e.runID, e.task, P.TaskRow(P.Running, attempt, Some(e.at), None, None, None, 0.0, "", ""));
      }
    }

    method ApplyTaskSkipped(e: P.Event) returns (ok: bool)
      modifies `tasks
      ensures ok <==> P.HasTask(old(Rows()), e.runID, e.task) || e.runID in runs
      ensures Rows() == if ok then P.PutTask(old(Rows()), e.runID, e.task, P.SkippedRow(old(Rows()), e)) else old(Rows())
    {
      var rows := P.TasksOf(Rows(), e.runID);
      if e.task in rows {
        var row := rows[e.task];
        row := row.(status := P.Skipped, endedAt := Some(e.at), durationMs := Some(0), error := e.error);
        if row.startedAt == None { row := row.(startedAt := Some(e.at)); }
        ok := PutTask(e.runID, e.task, row);
      } else {
        ok := PutTask(e.runID, e.task, P.TaskRow(P.Skipped, 1, Some(e.at), Some(e.at), Some(0), None, 0.0, e.error, ""));
      }
    }

    /** A canceled row keeps its status and error; the cost goes to the row and is added to the run's. */
    method ApplyTaskTerminal(e: P.Event, kind: string) returns (ok: bool)
      modifies `runs, `tasks
      ensures ok <==> P.HasTask(old(Rows()), e.runID, e.task) || e.runID in old(runs)
      ensures ok ==> Rows() == P.RollUp(P.PutTask(old(Rows()), e.runID, e.task, P.EndedRow(old(Rows()), e, kind)), e)
      ensures !ok ==> Rows() == old(Rows())
    {
      var status := P.Succeeded;
      if e.success != None && !e.success.value { status := P.Failed; }
      var cost := if e.costUsd != None then e.costUsd.value else 0.0;
      var rows := P.TasksOf(Rows(), e.runID);
      if e.task in rows {
        var row := rows[e.task];
        if row.status != P.Canceled { row := row.(status := status, error := e.error); }
        row := row.(endedAt := Some(e.at), costUsd := cost, kind := kind);
        if e.durationMs != None { row := row.(durationMs := e.durationMs); }
        if e.exit != None { row := row.(exitCode := e.exit); }
        ok := PutTask(e.runID, e.task, row);
      } else {
        ok := PutTask(e.runID, e.task, P.TaskRow(status, 1, Some(e.at), Some(e.at), e.durationMs, e.exit, cost, e.error, kind));
      }
      if ok && cost > 0.0 && e.runID in runs {
        runs := runs[e.runID := runs[e.runID].(costUsd := runs[e.runID].costUsd + cost)];
      }
    }

    method ApplyScheduleComplete(e: P.Event)
      modifies `runs
      ensures Rows() == P.ApplyScheduleComplete(old(Rows()), e)
    {
      if e.runID in runs {
        var row := runs[e.runID];
        if row.status != P.Canceled {
          var status := P.Succeeded;
          if e.success != None && !e.success.value { status := P.Failed; }
          row := row.(status := status, error := e.error);
        }
        row := row.(endedAt := Some(e.at));
        if e.durationMs != None { row := row.(durationMs := e.durationMs); }
        if e.taskCount > 0 { row := row.(taskCount := e.taskCount); }
        runs := runs[e.runID := row];
      }
    }

    method ApplyTrigger(e: P.Event)
      modifies `runs
      ensures Rows() == P.ApplyTrigger(old(Rows()), e)
    {
      if e.runID !in runs {
        var source := e.source;
        if source == "" { source := "http"; }
        runs := runs[e.runID := P.RunRow(e.schedule, P.Queued, source, "", None, None, None, 0.0, 0, "")];
      }
    }

    method FoldEvent(e: P.Event) returns (ok: bool)
      requires e.entryType != P.Missing
      modifies `runs, `tasks
      ensures ok <==> !P.Refused(old(Rows()), e)
      ensures Rows() == if ok then P.Fold(old(Rows()), e) else old(Rows())
    {
      ok := true;
      match e.entryType {
        case ScheduleStart => ApplyScheduleStart(e);
        case TaskStart => ok := ApplyTaskStart(e);
        case TaskSkipped => ok := ApplyTaskSkipped(e);
        case ShellRun => ok := ApplyTaskTerminal(e, "shell");
        case AgentRun => ok := ApplyTaskTerminal(e, "agent");
        case ScheduleComplete => ApplyScheduleComplete(e);
        case Trigger => ApplyTrigger(e);
        case Unknown =>
      }
    }

    /** One transaction: the ledger row and the fold, or neither. */
    method Apply(e: P.Event) returns (r: Result<()>)
      modifies `runs, `tasks, `ledger
      ensures Rows() == P.Apply(old(Rows()), e)
      ensures r.Err? <==> e.runID != "" && e.entryType in {P.TaskStart, P.TaskSkipped, P.ShellRun, P.AgentRun}
                          && e.runID !in old(runs) && !P.HasTask(old(Rows()), e.runID, e.task)
    {
      if e.runID == "" || e.entryType == P.Missing { return Ok(()); }
      var before := ledger;
      ledger := before + [(e.runID, e.task, e.entryType, e.at)];
      var ok := FoldEvent(e);
      if !ok {
        ledger := before;
        return Err("foreign key");
      }
      r := Ok(());
    }

    // ----- Retry -----

    /** The old run's payload under the new id. A new id already in the queue is left as it is. */
    method Retry(runID: string, newRunID: string, now: nat) returns (r: Result<RetryResult>)
      modifies `jobs
      ensures r.Ok? <==> runID != "" && newRunID != "" && runID in old(jobs)
                         && old(jobs)[runID].status in {Q.Done, Q.Failed, Q.Canceled}
      ensures r.Ok? ==>
                var j := old(jobs)[runID];
                && Jobs() == Q.Step(old(Jobs()), Arriving(now, Q.Enqueue(newRunID, j.schedule, j.payload.(runID := newRunID))))
                && r.value == RetryResult(j.schedule, [])
      ensures r.Err? ==> Jobs() == old(Jobs())
    {
      if runID == "" || newRunID == "" { return Err("Retry: empty run_id or new_run_id"); }
      if runID !in jobs { return Err("Retry: run not in queue"); }
      var j := jobs[runID];
      if j.status == Q.Pending || j.status == Q.Claimed { return Err("Retry: run is still in flight"); }
      Insert(newRunID, j.schedule, j.payload.(runID := newRunID), now);
      r := Ok(RetryResult(j.schedule, []));
    }

    /** The tasks whose rows say succeeded are dropped; refused when nothing would be left. */
    method RetryFailed(runID: string, newRunID: string, now: nat) returns (r: Result<RetryResult>)
      modifies `jobs
      ensures r.Ok? <==> runID != "" && newRunID != "" && runID in old(jobs)
                         && old(jobs)[runID].status in {Q.Done, Q.Failed, Q.Canceled} && Strip(old(jobs)[runID].payload.tasks, P.SucceededRows(Rows(), runID)) != []
      ensures r.Ok? ==>
                var j := old(jobs)[runID];
                && Jobs() == Q.Step(old(Jobs()), Arriving(now,
                     Q.Enqueue(newRunID, j.schedule, Payload(newRunID, Strip(j.payload.tasks, P.SucceededRows(Rows(), runID))))))
                && r.value.schedule == j.schedule
                && NoRepeats(r.value.skippedTasks)
                && forall n :: n in r.value.skippedTasks <==>
                     P.HasTask(Rows(), runID, n) && P.TasksOf(Rows(), runID)[n].status == P.Succeeded
      ensures r.Err? ==> Jobs() == old(Jobs())
    {
      if runID == "" || newRunID == "" { return Err("RetryFailed: empty run_id or new_run_id"); }
      if runID !in jobs { return Err("RetryFailed: run not in queue"); }
      var j := jobs[runID];
      if j.status == Q.Pending || j.status == Q.Claimed { return Err("RetryFailed: run is still in flight"); }
      var skipped, skippedList := SelectSucceeded(P.TasksOf(Rows(), runID));
      assert skipped == P.SucceededRows(Rows(), runID);
      var newPayload := FilterScheduleTasks(j.payload, skipped, newRunID);
      if newPayload.tasks == [] { return Err("RetryFailed: every task already succeeded; nothing to retry"); }
      Insert(newRunID, j.schedule, newPayload, now);
      r := Ok(RetryResult(j.schedule, skippedList));
    }

    /** Only the tasks in `keep`, which the task itself always is; refused for a task without a row. */
    method RetryTask(runID: string, taskName: string, keep: set<string>, newRunID: string, now: nat)
        returns (r: Result<RetryResult>)
      modifies `jobs
      ensures r.Ok? <==> runID != "" && newRunID != "" && runID in old(jobs)
                         && old(jobs)[runID].status in {Q.Done, Q.Failed, Q.Canceled} && taskName != "" && P.HasTask(Rows(), runID, taskName)
                         && var all := old(jobs)[runID].payload.tasks; Strip(all, Names(all) - (keep + {taskName}) - {""}) != []
      ensures r.Ok? ==>
                var j := old(jobs)[runID];
                var drop := Names(j.payload.tasks) - (keep + {taskName}) - {""};
                && Jobs() == Q.Step(old(Jobs()), Arriving(now,
                     Q.Enqueue(newRunID, j.schedule, Payload(newRunID, Strip(j.payload.tasks, drop)))))
                && r.value.schedule == j.schedule
                && r.value.skippedTasks == DroppedNames(j.payload.tasks, keep + {taskName})
      ensures r.Err? ==> Jobs() == old(Jobs())
    {
      if runID == "" || newRunID == "" { return Err("RetryTask: empty run_id or new_run_id"); }
      if taskName == "" { return Err("RetryTask: empty task name"); }
      var kept := keep;
      if taskName !in keep { kept := kept + {taskName}; }
      assert kept == keep + {taskName};
      if runID !in jobs { return Err("RetryTask: run not in queue"); }
      var j := jobs[runID];
      if j.status == Q.Pending || j.status == Q.Claimed { return Err("RetryTask: run is still in flight"); }
      if !P.HasTask(Rows(), runID, taskName) { return Err("RetryTask: task not found in run"); }
      var skip, dropped := BuildSkipFromKeep(j.payload.tasks, kept);
      var newPayload := FilterScheduleTasks(j.payload, skip, newRunID);
      if newPayload.tasks == [] { return Err("RetryTask: payload narrowed to empty task list"); }
      Insert(newRunID, j.schedule, newPayload, now);
      r := Ok(RetryResult(j.schedule, dropped));
    }
  }

  // ----- Loops over values -----

  /** Every lapsed claim goes back to pending; counts them. */
  method ReapJobs(was: map<string, Q.Job>, at: string) returns (jobs: map<string, Q.Job>, moved: nat, ghost freed: set<string>)
    ensures jobs == map r | r in was :: if Q.Lapsed(was[r], at) then Q.Freed(was[r]) else was[r]
    ensures forall r ::
      r in freed <==> (r in was && was[r].status == Q.Claimed && was[r].claimExpiresAt != None
                       && TextLess(was[r].claimExpiresAt.value, at))
    ensures moved == |freed|
  {
    jobs, moved := was, 0;
    var rest := was.Keys;
    freed := {};
    while rest != {}
      invariant rest <= was.Keys && jobs.Keys == was.Keys
      invariant forall r :: r in was ==> jobs[r] == if r in freed then Q.Freed(was[r]) else was[r]
      invariant forall r :: r in freed <==> r in was && r !in rest && Q.Lapsed(was[r], at)
      invariant moved == |freed|
    {
      var r :| r in rest;
      rest := rest - {r};
      var j := jobs[r];
      if j.status == Q.Claimed && j.claimExpiresAt != None && TextLess(j.claimExpiresAt.value, at) {
        jobs := jobs[r := j.(status := Q.Pending, claimedBy := "", claimedAt := None, claimExpiresAt := None)];
        moved := moved + 1;
        freed := freed + {r};
      }
    }
  }

  /** Head and cascade, without empty names and repeats. */
  method CollectTargets(names: seq<string>) returns (targets: seq<string>)
    ensures targets == C.Targets(names)
  {
    targets := [];
    var seen: set<string> := {};
    for i := 0 to |names|
      invariant targets == C.Targets(names[..i])
      invariant forall n :: n in seen <==> n in targets
    {
      assert names[..i + 1][..i] == names[..i];
      if names[i] != "" && names[i] !in seen {
        seen := seen + {names[i]};
        targets := targets + [names[i]];
      }
    }
    assert names[..|names|] == names;
  }

  /** The loop of `CancelTask` over its targets. */
  method MarkTargets(before: map<string, P.TaskRow>, targets: seq<string>, at: string)
      returns (rows: map<string, P.TaskRow>, canceled: seq<string>, settled: seq<string>)
    requires NoRepeats(targets)
    ensures rows == C.CancelTargets(before, targets, at)
    ensures canceled == C.Pick(before, targets, false)
    ensures settled == C.Pick(before, targets, true)
  {
    rows, canceled, settled := before, [], [];
    for i := 0 to |targets|
      invariant rows == C.CancelTargets(before, targets[..i], at)
      invariant canceled == C.Pick(before, targets[..i], false)
      invariant settled == C.Pick(before, targets[..i], true)
    {
      assert targets[..i + 1][..i] == targets[..i];
      var name := targets[i];
      C.CancelTargetsIs(before, targets[..i], at);
      assert name !in targets[..i];
      if name !in rows {
        rows := rows[name := P.TaskRow(P.Canceled, 1, Some(at), Some(at), Some(0), None, 0.0, "", "")];
        canceled := canceled + [name];
      } else if rows[name].status.Terminal() {
        settled := settled + [name];
        assert rows[name := rows[name]] == rows;
      } else {
        rows := rows[name := rows[name].(status := P.Canceled, endedAt := Some(at))];
        canceled := canceled + [name];
      }
    }
    assert targets[..|targets|] == targets;
  }

  /** A queued row for each name that has none. */
  method InsertQueued(was: map<string, P.TaskRow>, names: seq<string>) returns (rows: map<string, P.TaskRow>)
    ensures rows == P.InsertQueued(was, names)
  {
    rows := was;
    for i := 0 to |names|
      invariant rows == P.InsertQueued(was, names[..i])
    {
      assert names[..i + 1][..i] == names[..i];
      if names[i] !in rows {
        rows := rows[names[i] := P.TaskRow(P.Queued, 1, None, None, None, None, 0.0, "", "")];
      }
    }
    assert names[..|names|] == names;
  }

  /** The names whose rows say succeeded, in whatever order the rows come. */
  method SelectSucceeded(rows: map<string, P.TaskRow>) returns (skipped: set<string>, list: seq<string>)
    ensures skipped == set n | n in rows && rows[n].status == P.Succeeded
    ensures NoRepeats(list) && forall n :: n in list <==> n in skipped
  {
    skipped, list := {}, [];
    var rest := rows.Keys;
    while rest != {}
      invariant rest <= rows.Keys
      invariant skipped == set n | n in rows && n !in rest && rows[n].status == P.Succeeded
      invariant NoRepeats(list) && forall n :: n in list <==> n in skipped
    {
      var name :| name in rest;
      rest := rest - {name};
      if rows[name].status == P.Succeeded {
        skipped := skipped + {name};
        list := list + [name];
      }
    }
  }

  // ----- Canceling a task from the listener -----

  /** Everything that depends on the task in the loaded schedule; nothing when the schedule is not loaded. */
  method ComputeCascade(schedules: seq<Loaded>, schedule: string, task: string) returns (cascade: seq<string>)
    ensures forall n :: n in cascade <==> n != task && DependsTransitively(LoadedTasks(schedules, schedule), n, task)
    ensures NoRepeats(cascade)
  {
    for i := 0 to |schedules|
      invariant LoadedTasks(schedules, schedule) == LoadedTasks(schedules[i..], schedule)
    {
      if schedules[i].name == schedule {
        cascade := DownstreamTasks(schedules[i].tasks, task);
        return;
      }
      assert schedules[i..][1..] == schedules[i + 1..];
    }
    NothingDepends(task);
    cascade := [];
  }

  lemma NothingDepends(task: string)
    ensures forall n :: !DependsTransitively([], n, task)
  {
    forall n | DependsTransitively([], n, task) ensures false {
      var b := FirstStep([], n, task);
    }
  }

  /** Once the tables went from `before` to `after`, no task that depends on `task`, nor `task` itself, that had not come
    * to its gate by then ever enters its body, whatever the walk and everyone else do next. */
  ghost predicate NoneEnters(before: P.Tables, after: P.Tables, runID: string, all: seq<Task>, task: string) {
    forall w: C.World, moves: seq<C.Move>, n: string {:trigger n in C.After(runID, w.(db := after), moves).entered} ::
      w.db == before && C.Sound(runID, w) && C.AllAllowed(runID, w.(db := after), moves)
      && n in FromHere(all, task) && n != "" && n !in w.passed ==>
        n !in C.After(runID, w.(db := after), moves).entered
  }

  lemma NoneEntersAfter(before: P.Tables, runID: string, targets: seq<string>, at: string, all: seq<Task>, task: string)
    requires runID != "" && NoRepeats(targets) && forall n :: n in targets <==> n != "" && n in FromHere(all, task)
    ensures NoneEnters(before, C.CancelTasks(before, runID, targets, at), runID, all, task)
  {
    var after := C.CancelTasks(before, runID, targets, at);
    forall w: C.World, moves: seq<C.Move>, n: string
      | w.db == before && C.Sound(runID, w) && C.AllAllowed(runID, w.(db := after), moves)
        && n in FromHere(all, task) && n != "" && n !in w.passed
      ensures n !in C.After(runID, w.(db := after), moves).entered
    {
      assert C.After(runID, w, []) == w && C.AllAllowed(runID, w, []);
      assert C.Next(runID, w, C.CancelTaskCall(targets, at)) == w.(db := after);
      C.CanceledNeverRuns(runID, w, [], targets, at, moves, n);
    }
  }

  /** Cancels the task and everything that depends on it in the loaded schedule: the rows of these, and of no
    * others, are canceled unless they were settled; and none of them that is still before its gate ever runs. */
  method TaskCancel(store: Store, schedules: seq<Loaded>, runID: string, task: string, now: nat)
      returns (r: Result<CancelTaskResult>)
    modifies store`tasks
    ensures r.Ok? <==> runID != "" && task != "" && runID in store.runs && P.HasTask(old(store.Rows()), runID, task)
                       && P.TasksOf(old(store.Rows()), runID)[task].status !in {P.Succeeded, P.Failed, P.Canceled}
    ensures r.Ok? ==>
              var all := LoadedTasks(schedules, store.runs[runID].schedule);
              exists targets: seq<string> ::
                && store.CanceledTargets(old(store.Rows()), runID, targets, store.stamp(now), r.value)
                && NoRepeats(targets)
                && forall n :: n in targets <==> n != "" && n in FromHere(all, task)
    ensures r.Ok? ==>
              NoneEnters(old(store.Rows()), store.Rows(), runID, LoadedTasks(schedules, store.runs[runID].schedule), task)
    ensures forall run, n ::
              (P.HasTask(old(store.Rows()), run, n) && P.TasksOf(old(store.Rows()), run)[n].status in {P.Succeeded, P.Failed}) ==>
                P.HasTask(store.Rows(), run, n) && P.TasksOf(store.Rows(), run)[n] == P.TasksOf(old(store.Rows()), run)[n]
    ensures r.Err? ==> store.Rows() == old(store.Rows())
  {
    if runID !in store.runs { return Err("run not found"); }
    var cascade := ComputeCascade(schedules, store.runs[runID].schedule, task);
    ghost var before, all := store.Rows(), LoadedTasks(schedules, store.runs[runID].schedule);
    r := store.CancelTask(runID, task, cascade, now);
    ghost var names := [task] + cascade;
    C.TargetsAre(names);
    assert forall n :: n in names <==> n == task || n in cascade;
    ghost var targets := C.Targets(names);
    assert forall n :: n in targets <==> n != "" && n in FromHere(all, task);
    if r.Ok? { NoneEntersAfter(before, runID, targets, store.stamp(now), all, task); }
  }
}
