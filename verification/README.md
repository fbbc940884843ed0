# Cronicle: the walker, the queue, narrowing, and the projection

A model of the parts of Cronicle where several things happen at once, or where one function has to leave another's
meaning intact, with proofs of what they are for.

- **The DAG walker** (`Dag`, `Walk`, `Walker`). `Dag.Meaning` is the plain recursive reading of a dependency graph: what
  becomes of each task, with cycles, repeated entries, names of no task and continue_on_failure included. `Walk` is the
  concurrent walker as interleaved steps of a coordinator, one goroutine per launched task, and a bounded channel.
  `Walker.WalkDAG` picks freely among the enabled steps, so what it ensures holds of every interleaving: the outcome is
  `Meaning`, the callbacks come in a justified order, some step is always enabled, and the walk ends.
- **The job queue** (`Queue`, `Rfc3339`, `Workers`). The rows of the jobs and workers tables under any sequence of calls:
  settle-once, the shape of rows, conservation of the counters, and leases. Expiry and order are compared as
  RFC 3339 text with trailing zeros dropped, so `Rfc3339` proves what that order means (section 5.1 of RFC 3339 promises
  it only for equally many fraction digits), and the lease bounds carry the second that it costs. `Workers` puts the
  workers' own loop around the queue: no two of them ever execute the same job.
- **Narrowing** (`Schedule`, `Downstream`, `Narrow`, `Retry`, `Replay`). The breadth-first search, the three narrowing
  loops, what they keep of the ordering, and what a narrowed run means against the whole schedule. `Replay` joins the
  pieces: a walk's callbacks become events, the events become rows, and retry-failed reads its skip list off the rows.
- **The projection** (`Projection`, `Sums`, `Cancel`). How events fold into run and task rows, sticky cancel, the cost
  roll-up, and the cancel of a task with its dependents against a walk in progress.
- **The store** (`Store`). The tables as fields of a class and the methods that write them, each tied to the row functions
  the results above are about.
- **Three small machines**: the writers that share stdout (`Streaming`), the secret expander (`Expand`), and the two SQL
  scanners (`Statements`).

Clocks, run ids and the row a SELECT returns are parameters. Each store method is one atomic step, as in the source,
where it runs under one mutex. Times are nanoseconds since the start of the year 0, in UTC. Bodies of tasks are a map
from task names to the error they return, if any; since no body is called twice (`Walker.WalkDAG`), a map loses nothing.
`Cancel` takes the walk to run in the process whose tables the cancel writes, and assumes nothing about how often a task
comes to its gate: only that a task's body and its events come after it passed.

Where the code and what is said about it differ, the model follows the code:

- Statuses do reverse (internal/cronicle/state/store.go:435-437 says they never do): exactly when a row is settled after
  any sequence of events is `Projection.RunSettledIff` and `Projection.TaskSettledIff`.
- The "oldest" pending job is oldest by text (internal/cronicle/state/queue.go:154-159). `Queue.ClaimInOrderIff` says
  exactly for which tables a claim is first in, first out, and `Queue.ClaimOvertakes` is a table for which it is not.
- A heartbeat every third of the visibility is called safe (internal/cronicle/state/queue.go:269-271). `Workers.ThirdIff`
  says exactly when it is: with heartbeats on time, from a visibility of a second and a half, to the nanosecond.
- The error about a cycle also names tasks that only depend on a name of no task (internal/cronicle/dag.go:301-323):
  `Dag.UnreachedIff`.
- The walker takes an empty name for "no failed dependency" (internal/cronicle/dag.go:265-282). The configuration refuses
  empty names (internal/cronicle/config.go:513-517); `Dag.CascadesIff` says exactly when it matters.
- Retry-failed can lose an ordering when a task marked continue_on_failure succeeded between two that are retried.
  `Retry.OutlastsRetryIff` says, from the schedule alone, exactly which orderings every retry keeps, and
  `Retry.CarryOnLosesOrdering` is one that is lost.
- A worker acknowledges a walk that comes to its end as a success, whatever its tasks returned
  (internal/cronicle/worker_http.go:250-294): `Workers.DoneWhateverReturned`.
- `splitStatements` is called naive (internal/cronicle/state/pg.go:154-158) but does track quotes and line comments;
  `rebindQuery` tracks quotes only.

## Model

| member | source | states |
|---|---|---|
| Dag.MeaningEquation | internal/cronicle/dag.go:224-326 | the plain meaning satisfies its own recursion with no level count: reached iff every dependency is, then run, or skipped for the first failed dependency |
| Dag.ReachedMeans | internal/cronicle/dag.go:265-299 | the same without naming a search: the first entry, in the task's own order, whose task failed or was skipped decides, unless the task carries on or that entry is the empty name |
| Dag.FirstFailedIsFirst | internal/cronicle/dag.go:273-281 | the failed dependency reported is the first failed one in the depends list, and the empty name when none failed |
| Dag.UnreachedIff | internal/cronicle/dag.go:301-323 | a task is left over iff following depends from it reaches a cycle or a name of no task |
| Dag.LeftoversIffCycle | internal/cronicle/dag.go:301-323 | when every depends entry names a task, something is left over iff there is a cycle, and a whole cycle lies inside what is left over |
| Dag.UnreachedIgnoresErrors | internal/cronicle/dag.go:301-323 | which tasks are left over does not depend on what the bodies return |
| Dag.CascadesIff | internal/cronicle/dag.go:265-299 | a failure cascades for all body results iff no reachable task without continue_on_failure depends on a task named "" |
| Walk.NextKeeps | internal/cronicle/dag.go:238-299 | every step of every goroutine keeps the walker's invariant: places, in-degrees, failed marks, the running count, the log |
| Walk.EveryMoment | internal/cronicle/dag.go:238-299 | at every moment of every interleaving: running is bodies in flight plus unread completions, the channel never overfills, a skip's send has room, callbacks so far are justified, a body returns an error iff it is given one, and the error kept is the first one returned |
| Walk.FirstFailureIs | internal/cronicle/dag.go:243-254 | the error kept is that of the body that returned an error before any other did |
| Walk.NextIsCloser | internal/cronicle/dag.go:261-299 | every step comes closer to the end, so the loop ends whenever bodies return |
| Walk.DecisionIsMeaning | internal/cronicle/dag.go:265-299 | when a task's last dependency is received, the walker's choice to launch or skip is the one in the plain meaning |
| Walk.SomethingCanMove | internal/cronicle/dag.go:261-263 | while running is positive, some body, send or receive is possible: no deadlock |
| Walker.BuildEdges | internal/cronicle/dag.go:225-236 | in-degrees count depends entries with repeats, and dependents list each task as often as it lists the dependency |
| Walker.FindFailed | internal/cronicle/dag.go:268-276 | the loop finds the first failed entry in list order, or the empty name when none failed |
| Walker.Shared.ScanOne | internal/cronicle/dag.go:264-299 | one dependent of a received task: count down, then launch, or mark failed and report |
| Walker.Shared.BodyReturns | internal/cronicle/dag.go:243-254 | a body that returns an error marks its task failed; its error is kept iff no body before it returned one |
| Walker.Turn | internal/cronicle/dag.go:238-299 | in every state that is not the end some alternative is enabled, and each is a step of the machine |
| Walker.WalkDAG | internal/cronicle/dag.go:224-326 | for every interleaving: tasks run, tasks skipped and for which dependency, leftovers and the result are those of the plain meaning; the task error returned is that of the first body in the log that returned one; each body runs at most once, after everything it depends on finished |
| Walker.FailureHasCause | internal/cronicle/dag.go:265-299 | behind every failed task there is a body that ran and returned an error |
| Walker.EverythingSucceedsIff | internal/cronicle/dag.go:301-325 | every task ran without error iff nothing is left over and no body that ran returned an error |
| Schedule.BuildPlan | internal/cronicle/dag.go:75-141 | the loops that prepare the walk give the plan of the task list |
| Schedule.PlanIs | internal/cronicle/dag.go:75-141 | what that plan is: the last task of a name gives its depends, and any task of a name that carries on makes the name carry on |
| Schedule.ChainIsFollows | internal/cronicle/dag.go:75-80 | with unique names, dependency chains through the task list are paths through the plan |
| Downstream.DownstreamTasks | internal/cronicle/dag.go:366-389 | for every graph, cyclic ones included: exactly the tasks that depend on the root directly or through others, without the root, without repeats, nearest first, and in the order in which a breadth-first search comes to them |
| Downstream.ChildrenSplit | internal/cronicle/dag.go:366-374 | the direct dependents come in schedule order, one for each entry |
| Narrow.FilterScheduleTasks | internal/cronicle/state/control.go:426-469 | the loop drops the skipped tasks and the depends entries that named them, and sets the run id |
| Narrow.BuildSkipFromKeep | internal/cronicle/state/control.go:398-419 | the skip set is the named tasks outside the keep set, and the list returned has just these, in payload order, without repeats if names are unique |
| Narrow.DroppedSplit | internal/cronicle/state/control.go:398-419 | the list dropped from a payload in two parts is the two lists one after the other |
| Narrow.StripSplits | internal/cronicle/state/control.go:426-469 | narrowing works task by task and keeps their order |
| Narrow.StripOne | internal/cronicle/state/control.go:440-460 | one task is dropped by its name alone; if it is left, only its depends list loses entries |
| Narrow.WithoutSplits | internal/cronicle/state/control.go:440-460 | entries are dropped by name, one by one, and those left keep their order |
| Narrow.TriggerSubgraph | internal/cronicle/listen.go:705-738 | the kept set is the task and all that depends on it, and everything else mentioned is stripped |
| Narrow.StripNames | internal/cronicle/state/control.go:426-469 | the tasks left are those not dropped, and unique names stay unique |
| Narrow.StripEdges | internal/cronicle/state/control.go:426-469 | the edges left are exactly those between two names that are left |
| Narrow.OrderingKept | internal/cronicle/listen.go:705-738 | if whoever depends on something left is left too, the transitive ordering among what is left is exactly the original one |
| Narrow.FromHereKeepsDependents | internal/cronicle/listen.go:705-738 | trigger-from meets that condition for every task and graph |
| Narrow.EntryPoint | internal/cronicle/listen.go:705-738 | no depends entry points outside, and the chosen task is the only entry point iff it does not depend on itself |
| Narrow.SkipListIffKeepList | internal/cronicle/state/control.go:398-469 | retry of a task and trigger-from narrow to the same tasks iff no nameless task is outside the keep set and every depends entry of a kept task is kept or names a task |
| Retry.PlanOfStrip | internal/cronicle/state/control.go:426-469 | narrowing a task list and narrowing its plan are the same |
| Retry.MeaningOfStripIff | internal/cronicle/state/control.go:426-469 | when no dropped task that matters fails, a narrowed run means for every task left what the whole run means, exactly if the whole run reaches every dropped task on which a task depends that the narrowed run reaches; for every graph |
| Retry.RetryFailedMeaning | internal/cronicle/state/control.go:219-297 | retry-failed means the whole schedule with the recorded successes reused, however the retried bodies behave |
| Retry.EachSucceedsOnce | internal/cronicle/state/control.go:219-297 | on a closed graph without cycles, if no retried body returns an error, every task succeeds in exactly one of the two runs |
| Retry.SucceededKeepDependents | internal/cronicle/state/control.go:249-266 | with no continue_on_failure task among them, the succeeded tasks are closed under depends |
| Retry.RetryFailedKeepsOrdering | internal/cronicle/state/control.go:249-272 | for every graph: of two retried tasks one waits for the other iff the original has a chain between them with no task on it that carried on and succeeded; the payload stays closed and free of cycles if it was |
| Retry.OutlastsRetryIff | internal/cronicle/state/control.go:219-297 | of a closed schedule without cycles, an ordering is kept whatever the first run did iff some chain has no continue_on_failure task strictly between its ends |
| Retry.CarryOnLosesOrdering | internal/cronicle/state/control.go:249-272 | an instance: a schedule and a first run after which retry-failed loses an ordering |
| Retry.FromHereMeaningIff | internal/cronicle/listen.go:705-738 | a run triggered from a task means for what is kept what the whole schedule means with everything else returning no error, iff no cycle or missing name is cut off that held back a task that now runs |
| Retry.FromHereMeaning | internal/cronicle/listen.go:705-738 | so it does for every closed schedule without cycles |
| Replay.RowFollows | internal/cronicle/state/store.go:583-650 | a task's status follows the starts and ends of that task alone, whatever other runs' events come in between |
| Replay.RowsSaySucceeded | internal/cronicle/state/store.go:480-506 | after a run whose events arrived, a row says succeeded iff the plain meaning of the graph says the task ran without error |
| Replay.SucceededRowsAre | internal/cronicle/state/control.go:249-266 | after a run nobody canceled, the skip list that retry-failed reads off the rows is the set of tasks that succeed in the plain meaning, and nothing else |
| Replay.CanceledRunLeavesOut | internal/cronicle/state/control.go:249-266 | after a run canceled at any moment, whatever events still come in from its bodies, that skip list is exactly the tasks whose body had returned without an error before the cancel |
| Replay.RetryAfterRun | internal/cronicle/state/control.go:219-297 | the retry results above with that skip list |
| Rfc3339.TextOrderBySecond | internal/cronicle/state/queue.go:107 | text order respects whole seconds in both directions |
| Rfc3339.EarlierSecondFirst | internal/cronicle/state/queue.go:314-322 | a stamp a whole second earlier is less as text |
| Rfc3339.TextOrderWithinSecond | internal/cronicle/state/queue.go:154-159 | within one second text order is wrong iff one trimmed fraction is a proper prefix of the other |
| Rfc3339.TextOrderIff | internal/cronicle/state/queue.go:154-159 | exactly when an earlier time is less as text, for all times up to the year 9999 |
| Rfc3339.FormatIs | internal/cronicle/state/queue.go:107 | the stamp of an instant given by its calendar fields: date, T, clock, the fraction without trailing zeros or not at all, Z; for every year, month length and leap year included |
| Queue.SettledForGood | internal/cronicle/state/queue.go:100-334 | over every run, a settled job's row never changes again and is never claimed |
| Queue.InertChangeNothing | internal/cronicle/state/queue.go:100-302 | over every run, acks and heartbeats from non-owners, enqueues of known ids and cancels of settled jobs might as well not have come |
| Queue.RunKeepsShape | internal/cronicle/state/queue.go:100-334 | in every reachable state an expiry is set iff claimed, a completion iff settled, pending rows have no owner, claimed rows a registered one |
| Queue.RunConserves | internal/cronicle/state/queue.go:172-265 | in every reachable state attempts summed over jobs equal runs summed over workers, and failed jobs equal failures summed over workers |
| Queue.RunCovers | internal/cronicle/state/queue.go:172-265 | in every reachable state the runs a worker failed and the jobs it holds are together no more than the runs it was given |
| Queue.ClaimInOrderIff | internal/cronicle/state/queue.go:154-159 | whatever row the SELECT returns, a claim takes a job enqueued first iff no pending job of the same second has digits of which the first one's are a proper prefix |
| Queue.ClaimOvertakes | internal/cronicle/state/queue.go:154-159 | an instance: two rows of which a claim takes the later |
| Queue.ClaimOrder | internal/cronicle/state/queue.go:154-159 | a claim never passes over a job from an earlier second |
| Queue.UnlapsedKept | internal/cronicle/state/queue.go:133-334 | a lease that no reap finds lapsed is kept, with its renewals, until the job is acknowledged or canceled |
| Queue.FormatSparesEarly | internal/cronicle/state/queue.go:310-323 | with the store's stamps no reap a second or more before the expiry finds the lease lapsed |
| Queue.NoClaimBeforeExpiry | internal/cronicle/state/queue.go:133-334 | a job held until e is claimed by no one earlier than a second before e |
| Queue.ReapFrees | internal/cronicle/state/queue.go:310-323 | the first reap a second or more after e frees the job |
| Queue.ReapFreesIff | internal/cronicle/state/queue.go:310-323 | exactly when a reap frees a held job, within the second too |
| Queue.TimelyWorkerKeepsJob | internal/cronicle/state/queue.go:272-302 | a worker whose heartbeats come at least a second before the end of each grant loses its job only to a cancel |
| Queue.OnlyMoves | internal/cronicle/state/queue.go:100-334 | behind these, in one step: the only status changes there are, each with the call that makes it; payload and enqueue time never change |
| Queue.StampsAre | internal/cronicle/state/queue.go:100-334 | behind these, in one step: rows appear only by an enqueue; a completion is stamped exactly when the job settles, an attempt counted and a claim stamped exactly when it is claimed, and an expiry moves only for its owner's heartbeat |
| Queue.EnqueueWrites | internal/cronicle/state/queue.go:100-123 | the whole new row of an unknown id, and nothing for a known one |
| Queue.ClaimWrites | internal/cronicle/state/queue.go:161-208 | a claim column by column: the job's status, owner, stamps and attempt, and the worker's row, new or old |
| Queue.AckWrites | internal/cronicle/state/queue.go:222-267 | an owner's acknowledgement column by column; the worker's current run is cleared, and only a failure counts against it |
| Queue.HeartbeatWrites | internal/cronicle/state/queue.go:272-302 | an owner's heartbeat moves the expiry and the worker's last sign of life, and nothing else |
| Queue.ReapWrites | internal/cronicle/state/queue.go:310-334 | a reap clears owner, claim stamp and expiry of the claims whose expiry text is less, and touches no other row |
| Queue.CancelWrites | internal/cronicle/state/control.go:53-96 | a cancel column by column; the owner stays on record |
| Workers.OneWorkerPerJob | internal/cronicle/worker_http.go:174-314 | over every run of any number of workers, crashes included, in which no reap finds a live lease lapsed: no two execute the same job, and who executes an unsettled job owns it |
| Workers.LapsedIsShared | internal/cronicle/state/queue.go:310-334 | and it takes no less: after a reap that finds a live lease lapsed, the next claim of the job has two workers executing it |
| Workers.InTimeIff | internal/cronicle/state/queue.go:310-323 | by the clock, a reap finds no live lease lapsed iff none of the expiries is one that it frees |
| Workers.SecondIsInTime | internal/cronicle/state/queue.go:310-323 | a second to spare is enough |
| Workers.RefusedOnlyWhenSettled | internal/cronicle/worker_http.go:299-314 | a heartbeat is refused only once the job has settled |
| Workers.DoneWhateverReturned | internal/cronicle/worker_http.go:250-294 | a job whose walk came to its end is done for every result, while the run says succeeded iff the result is success, that is iff every task ran and returned no error |
| Workers.EndSettles | internal/cronicle/worker_http.go:250-294 | behind it: an execution settles its job by its outcome alone while the worker owns it: failed only for a bad payload or a panic, and not acknowledged at all when the run was canceled |
| Workers.CurrentRunIsShown | internal/cronicle/state/queue.go:172-265 | over every run: while a worker executes a job it owns, its row in the workers table shows that run as its current one |
| Workers.BeatIs | internal/cronicle/worker_http.go:299-314 | a heartbeat of an owner renews the lease; of a worker that lost its job it changes no row and is the last one |
| Workers.CadenceIff | internal/cronicle/worker_http.go:299-314 | no reap within a gap of a grant finds its lease lapsed, whenever it was granted, iff the lease is a second longer than the gap |
| Workers.ThirdIff | internal/cronicle/state/queue.go:269-302 | exactly from which visibility a heartbeat every third of it, up to so much late, is in time |
| Workers.PunctualIsInTime | internal/cronicle/worker_http.go:154-160 | workers whose heartbeats come at such gaps keep every reap in time |
| Projection.QueuedKeeps | internal/cronicle/state/store.go:567-579 | a start adds a queued row for each name without one and touches no other row |
| Projection.TaskStartWrites | internal/cronicle/state/store.go:583-599 | a start's whole effect, column by column, on a row that is there and on one that is not, and on nothing else |
| Projection.TaskSkippedWrites | internal/cronicle/state/store.go:513-531 | the same for a skip |
| Projection.TaskEndWrites | internal/cronicle/state/store.go:601-640 | the same for an end: a canceled row keeps status and error, a NULL exit code or duration leaves the old one |
| Projection.TaskEndAdds | internal/cronicle/state/store.go:642-650 | an end adds its cost to its run iff the cost is positive, and touches no other row of runs or tasks |
| Projection.TriggerWrites | internal/cronicle/state/store.go:533-545 | a trigger makes a queued run row if there is none, and an event of unknown type changes no row |
| Projection.ScheduleStartWrites | internal/cronicle/state/store.go:547-581 | a run's start column by column, with a queued row for each name without one |
| Projection.ScheduleCompleteWrites | internal/cronicle/state/store.go:652-676 | a run's completion column by column; a canceled run keeps status and error |
| Projection.TaskCostIs | internal/cronicle/state/store.go:601-640 | after any sequence of events a task row has the cost and kind of its last end, 0 when that end had none, and what it had before when there was no end |
| Projection.CostIsSpent | internal/cronicle/state/store.go:642-649 | a run's cost is the sum over all its terminal events, retry attempts included |
| Projection.CostAlwaysCovers | internal/cronicle/state/store.go:601-650 | for every sequence of events a run's cost is at least the sum of its tasks' costs, and every task row has its run row |
| Projection.NothingTakenBack | internal/cronicle/state/store.go:513-676 | over every sequence rows are never lost; a task's first start stays, exit code and duration stay known; a run keeps schedule and source, its worker stays known, its cost never falls |
| Projection.LedgerRecords | internal/cronicle/state/store.go:442-474 | the ledger has, in order, one row for each event with a run id and a type whose run, if it is a task event, was started or triggered before, and no other |
| Projection.CanceledRunSticks | internal/cronicle/state/store.go:652-676 | a canceled run keeps status and error through every sequence without its own schedule_start |
| Projection.CanceledTaskSticks | internal/cronicle/state/store.go:620-640 | a canceled task keeps status and error through every sequence that does not start or skip it |
| Projection.TaskSettledIff | internal/cronicle/state/store.go:513-650 | after any sequence of events a task is settled iff the last of its starts, skips and ends is an end, or there were none and it was |
| Projection.RunSettledIff | internal/cronicle/state/store.go:547-676 | after any sequence of events a run is settled iff the last of its starts and completions is a completion, or there were none and it was |
| Projection.CanceledRunIsOver | internal/cronicle/state/control.go:97-111 | after a cancel the run and all its task rows are settled, and stay so through every sequence of events that starts or skips nothing in it |
| Projection.CanceledRunStaysCanceled | internal/cronicle/state/control.go:97-111 | a run that had not succeeded or failed says canceled after a cancel, and still does, with its error, after every sequence of events without its own start |
| Projection.CanceledTaskStaysCanceled | internal/cronicle/state/control.go:97-111 | the same for each of its tasks that had not succeeded or failed, skipped ones among them, through every sequence that does not restart it |
| Projection.CancelWrites | internal/cronicle/state/control.go:97-111 | behind them, column by column: what a cancel does to a run row, to each task row by its status, and to nothing else |
| Projection.CancelTakesNothing | internal/cronicle/state/control.go:249-266 | a cancel takes no row out of, and puts none into, what retry-failed leaves out |
| Projection.CancelSettlesAll | internal/cronicle/state/control.go:97-111 | behind it: after a cancel every task row of the run is succeeded, failed or canceled; settled rows and other runs are as they were |
| Cancel.TargetsAre | internal/cronicle/state/task_cancel.go:82-92 | the targets are the head and cascade without empty names and repeats |
| Cancel.CancelTargetsIs | internal/cronicle/state/task_cancel.go:111-149 | a target that is settled keeps its row to the last column; any other that has a row is canceled then and is otherwise as it was; one without a row gets a canceled one; every other row is as it was |
| Cancel.PicksSplit | internal/cronicle/state/task_cancel.go:111-149 | the two lists reported split the targets into those with a settled row and the rest, each exactly once |
| Cancel.PicksInOrder | internal/cronicle/state/task_cancel.go:111-149 | both lists keep the targets' order |
| Cancel.CancelTasksOnly | internal/cronicle/state/task_cancel.go:111-149 | no row of another run or another task, and no row that is settled, changes |
| Cancel.CancelTasksTakesNothing | internal/cronicle/state/control.go:249-266 | canceling tasks takes no row out of, and puts none into, what retry-failed leaves out |
| Cancel.CanceledNeverRuns | internal/cronicle/dag.go:143-186 | where the walk reads the tables the cancel wrote: a target that has not come to its gate when the cancel commits is stopped there and never enters its body, whatever came before and comes after |
| Cancel.OnlyTargetsStop | internal/cronicle/task_skip.go:106-118 | a task that no cancel names is never stopped by the gate, which lets it through |
| Store.Store.Enqueue | internal/cronicle/state/queue.go:100-123 | refused iff the id is empty, and otherwise the enqueue step of the queue |
| Store.Store.SelectOldest | internal/cronicle/state/queue.go:154-159 | a pending row that no pending row's stamp is less than, or none iff none is pending |
| Store.Store.Claim | internal/cronicle/state/queue.go:133-217 | a job iff one is pending; the claim step of the queue, and the job as claimed |
| Store.Store.Ack | internal/cronicle/state/queue.go:222-267 | the acknowledge step of the queue, both updates |
| Store.Store.Heartbeat | internal/cronicle/state/queue.go:272-302 | refused iff the worker does not own the job, and otherwise the heartbeat step |
| Store.Store.ReapExpired | internal/cronicle/state/queue.go:310-334 | the reap step, and how many rows it freed: the claimed ones whose expiry is less as text |
| Store.Store.Cancel | internal/cronicle/state/control.go:41-117 | refused iff settled; the cancel step, the rows of the run, which case it was; a run row that had not succeeded or failed says canceled |
| Store.Store.Retry | internal/cronicle/state/control.go:138-195 | refused iff unknown or in flight; the old payload enqueued under the new id, which does nothing when that id is known |
| Store.Store.RetryFailed | internal/cronicle/state/control.go:219-297 | the payload narrowed by exactly the rows whose status is succeeded, canceled ones not among them; refused when nothing would be left |
| Store.Store.RetryTask | internal/cronicle/state/control.go:314-393 | the payload narrowed to the keep set and the task itself, with the names left out in payload order; refused for a task without a row |
| Store.Store.CancelTask | internal/cronicle/state/task_cancel.go:46-155 | refused iff the head has no row or is settled; the targets canceled and reported, and no settled row changed |
| Store.Store.IsTaskCanceledInRun | internal/cronicle/state/task_cancel.go:161-174 | true iff the row exists and is canceled |
| Store.TaskCancel | internal/cronicle/listen_control.go:226-297 | from the listener: the targets are exactly the task and everything that depends on it in the loaded schedule; none of them still before its gate ever enters its body, and no row that says succeeded or failed changes |
| Store.LoadedIsFirst | internal/cronicle/listen_control.go:283-297 | the schedule searched is the first loaded one of that name |
| Store.Store.ApplyTaskTerminal | internal/cronicle/state/store.go:601-650 | the ended row with sticky cancel, and the roll-up of the cost |
| Store.Store.ApplyScheduleStart | internal/cronicle/state/store.go:547-581 | the run row and a queued row for each new name |
| Store.Store.Apply | internal/cronicle/state/store.go:442-462 | ledger row and fold together, or neither when the foreign key refuses the row |
| Streaming.AlwaysWholeBlocks | internal/cronicle/log.go:186-248 | for any number of writers and any interleaving, stdout is whole blocks followed by what the holder of the lock has written of its own |
| Streaming.FirstStreamsLive | internal/cronicle/log.go:212-229 | a writer made while the lock is free holds it until its own close, and till then stdout grows by exactly what is written to it, at once, whatever the other writers do |
| Streaming.OnlyFirstUntilClose | internal/cronicle/log.go:212-229 | so from the start until the first close stdout is what was written to the writer made first |
| Streaming.FollowerWaits | internal/cronicle/log.go:222-229 | what is written to any other writer does not reach stdout yet |
| Streaming.NothingLost | internal/cronicle/log.go:186-248 | once all are closed, stdout is each writer's text, whole and once, and that text is all that was written to it |
| Streaming.HolderCanRelease | internal/cronicle/log.go:234-248 | the holder of the lock can always let go of it by its own steps |
| Streaming.CanAlwaysFinish | internal/cronicle/log.go:234-248 | from every state all writers can be closed: no deadlock |
| Streaming.Console.WriteText | internal/cronicle/log.go:222-229 | a leader writes through and a follower buffers |
| Streaming.Console.BeginClose | internal/cronicle/log.go:234-239 | a leader lets go of the lock, a follower blocks, a second close does nothing |
| Expand.ExpandValue | internal/cronicle/secretstore/expand.go:27-57 | the three passes give the expansion |
| Expand.ExpansionIs | internal/cronicle/secretstore/expand.go:27-57 | which is the scanned text with its marks restored if every reference is resolved, and else an error naming every unresolved one and no text |
| Expand.ScanReads | internal/cronicle/secretstore/expand.go:27-57 | the scanned text piece by piece: two dollars are one, a reference is its value or itself and a complaint, any other character is itself |
| Expand.RefLengthIs | internal/cronicle/secretstore/expand.go:16-25 | a reference is $secret. and a name from an upper-case letter on, with upper-case letters, digits and underscores, as far as they go |
| Expand.ExpandEnv | internal/cronicle/secretstore/expand.go:65-80 | every line expanded, in order, an empty text for one with an error; the first error is reported |
| Expand.FirstErrorOfMore | internal/cronicle/secretstore/expand.go:65-80 | that error is the first line's that has one |
| Expand.TextsAre | internal/cronicle/secretstore/expand.go:65-80 | and each text is the expansion of its own line |
| Expand.EscapeThenReplace | internal/cronicle/secretstore/expand.go:31-51 | escaping hides no reference and makes none, so the first two passes are the scanner with a mark for each escaped dollar |
| Expand.MarksRestored | internal/cronicle/secretstore/expand.go:52 | restoring finds every mark, and besides them only what read like one already |
| Expand.PassesAreScannerIff | internal/cronicle/secretstore/expand.go:27-57 | the passes are the scanner iff the scanned text holds no mark |
| Expand.AgreesAlwaysIff | internal/cronicle/secretstore/expand.go:27-57 | for all secrets without a NUL the passes are the scanner iff no NUL of the text stands directly before an SOH or a reference |
| Expand.NulFreeAgrees | internal/cronicle/secretstore/expand.go:27-57 | in particular for every text without a NUL |
| Expand.LookupRefAgrees | internal/cronicle/secretstore/expand.go:89-102 | where a lone reference is looked up, expansion agrees |
| Expand.LookupRefIs | internal/cronicle/secretstore/expand.go:89-102 | it answers exactly for a text that is one reference from end to end, with the value or the error |
| Statements.SplitStatements | internal/cronicle/state/pg.go:159-196 | the loop gives the pieces between separators that are not blank |
| Statements.SqlReads | internal/cronicle/state/pg.go:159-196 | what the scanner takes for a separator: a semicolon, except in quotes and in comments to the end of the line |
| Statements.SplitRoundTrip | internal/cronicle/state/pg.go:159-196 | all pieces joined are the block; no statement holds a separator outside quotes and comments; split again each is itself, and joined and split they come back |
| Statements.RebindQuery | internal/cronicle/state/pg.go:111-134 | the loop puts $1, $2 and so on between the parts that the unquoted placeholders separate |
| Statements.QueryReads | internal/cronicle/state/pg.go:111-134 | what the scanner takes for a placeholder: a question mark, except in quotes |
| Statements.NumberedLast | internal/cronicle/state/pg.go:111-134 | each part after the first comes behind a dollar and the next number |
| Statements.DecimalIs | internal/cronicle/state/pg.go:111-134 | written in decimal without leading zeros |
| Statements.RebindNumbers | internal/cronicle/state/pg.go:111-134 | those parts joined by ? are the query, so quoted text is unchanged; no placeholder is left, and rebinding again does nothing |

## Left out

- SQL engines, drivers, transactions, migrations and store errors: each store method is one atomic step on maps of rows, with foreign keys enforced.
- HTTP, server-sent events, authentication, routes, event shipping and its loss: the retry results assume that the run's events reached the projection.
- The wait for a signal in `WaitForJob`: it affects latency only.
- Git, HCL, cron expressions, the agent loop, subprocesses, files, flags and pretty rendering.
- JSON: a payload is its decoded run id and tasks, each with name, depends and continue_on_failure; elements of other shapes are not modelled.
- The text of the walker's error: the names of tasks never executed are a set, not the sorted list.
- Task retry counts: `Replay` takes one attempt per task; `Projection` takes any number of attempts.
- Cancel.CanceledNeverRuns: does not model a distributed worker, whose gate reads a projection of its own (internal/cronicle/dag.go:112-118); the hint sent to such a worker has no handler (internal/cronicle/listen_control.go:254-264).
- The pause gate, the skip gate and a store that fails a gate: `Cancel` has the cancel gate, which comes before the skip gate.
- The worker's endless loops: `Workers` has their steps. The map of cancel functions is the `canceled` flag of an `End`.
- Negative visibilities and times outside the years 0 to 9999.
- Encryption and loading of secrets: the secret store is a function from names to answers.
- Bytes and UTF-8: strings are sequences of characters; every scanner here looks only for ASCII characters.
