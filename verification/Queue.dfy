/** The durable job queue: the rows of `jobs` and `workers`, and what each store method does to them. */
module Queue {
  // Every write happens under one mutex, so each method is one atomic step. Workers that claim, send
  // heartbeats, acknowledge or die are whatever sequence of calls arrives.

  import opened Narrow
  import opened Rfc3339
  import opened Sums
  import opened Wrappers

  datatype JobStatus = Pending | Claimed | Done | Failed | Canceled
  {
    predicate Terminal() {
      Done? || Failed? || Canceled?
    }
  }

  /** A row of the jobs table. Times are the text stored. */
  datatype Job = Job(
    schedule: string,
    payload: Payload,
    status: JobStatus,
    enqueuedAt: string,
    claimedAt: Option<string>,
    claimedBy: string,
    claimExpiresAt: Option<string>,
    attempt: nat,
    lastError: string,
    completedAt: Option<string>)

  /** A row of the workers table. */
  datatype Worker = Worker(lastSeen: string, currentRun: string, claimedAt: string, runsTotal: nat, runsFailed: nat)

  datatype Tables = Tables(jobs: map<string, Job>, workers: map<string, Worker>)

  /** The calls that reach the queue. `picked` is the row a claim's SELECT happened to return. */
  datatype Call =
    | Enqueue(runID: string, schedule: string, payload: Payload)
    | Claim(worker: string, visibility: nat, picked: Option<string>)
    | Ack(runID: string, worker: string, success: bool, message: string)
    | Heartbeat(runID: string, worker: string, visibility: nat)
    | Reap
    | Cancel(runID: string)

  // ----- What each call does -----
  // `at` is the stamp of the call, `expires` the stamp a visibility later.

  function NewJob(schedule: string, payload: Payload, at: string): Job {
    Job(schedule, payload, Pending, at, None, "", None, 0, "", None)
  }

  /** INSERT ... ON CONFLICT DO NOTHING, as `Enqueue` and the retries do. */
  function Insert(q: Tables, runID: string, schedule: string, payload: Payload, at: string): Tables {
    if runID in q.jobs then q else q.(jobs := q.jobs[runID := NewJob(schedule, payload, at)])
  }

  predicate IsPending(q: Tables, r: string) {
    r in q.jobs && q.jobs[r].status == Pending
  }

  /** A row ORDER BY enqueued_at LIMIT 1 may return. */
  predicate Oldest(q: Tables, r: string) {
    && IsPending(q, r)
    && forall other :: other in q.jobs && IsPending(q, other) ==> !TextLess(q.jobs[other].enqueuedAt, q.jobs[r].enqueuedAt)
  }

  function ClaimRow(q: Tables, worker: string, r: string, at: string, expires: string): Tables
    requires r in q.jobs
  {
    var j := q.jobs[r];
    var total := if worker in q.workers then q.workers[worker].runsTotal else 0;
    var failures := if worker in q.workers then q.workers[worker].runsFailed else 0;
    Tables(
      q.jobs[r := j.(status := Claimed, claimedBy := worker, claimedAt := Some(at), claimExpiresAt := Some(expires),
                     attempt := j.attempt + 1)],
      q.workers[worker := Worker(at, r, at, total + 1, failures)])
  }

  predicate Owns(q: Tables, r: string, worker: string) {
    r in q.jobs && q.jobs[r].status == Claimed && q.jobs[r].claimedBy == worker
  }

  function AckRow(q: Tables, r: string, worker: string, success: bool, message: string, at: string): Tables {
    if !Owns(q, r, worker) then q
    else
      var jobs := q.jobs[r := q.jobs[r].(status := if success then Done else Failed, completedAt := Some(at),
                                         lastError := message, claimExpiresAt := None)];
      if worker !in q.workers then q.(jobs := jobs)
      else
        var w := q.workers[worker];
        Tables(jobs, q.workers[worker := w.(lastSeen := at, currentRun := "",
                                            runsFailed := w.runsFailed + if success then 0 else 1)])
  }

  function HeartbeatRow(q: Tables, r: string, worker: string, at: string, expires: string): Tables {
    if !Owns(q, r, worker) then q
    else
      Tables(q.jobs[r := q.jobs[r].(claimExpiresAt := Some(expires))],
             if worker in q.workers then q.workers[worker := q.workers[worker].(lastSeen := at)] else q.workers)
  }

  predicate Lapsed(j: Job, at: string) {
    j.status == Claimed && j.claimExpiresAt != None && TextLess(j.claimExpiresAt.value, at)
  }

  function Freed(j: Job): Job {
    j.(status := Pending, claimedBy := "", claimedAt := None, claimExpiresAt := None)
  }

  function ReapRows(q: Tables, at: string): Tables {
    q.(jobs := map r | r in q.jobs :: if Lapsed(q.jobs[r], at) then Freed(q.jobs[r]) else q.jobs[r])
  }

  function CancelRow(q: Tables, r: string, at: string): Tables {
    if r !in q.jobs || q.jobs[r].status.Terminal() then q
    else
      var j := q.jobs[r];
      q.(jobs := q.jobs[r := j.(status := Canceled, completedAt := Some(at), lastError := "canceled",
                                claimExpiresAt := if j.status == Claimed then None else j.claimExpiresAt)])
  }

  /** The arguments are accepted, and a claim picks an oldest pending row if there is a pending row. */
  predicate Possible(q: Tables, call: Call) {
    match call
    case Enqueue(r, _, _) => r != ""
    case Claim(worker, _, picked) =>
      && worker != ""
      && if picked == None then forall r :: r in q.jobs ==> !IsPending(q, r) else Oldest(q, picked.value)
    case Ack(r, _, _, _) => r != ""
    case Heartbeat(r, worker, _) => r != "" && worker != ""
    case Reap => true
    case Cancel(r) => r != ""
  }

  function Write(q: Tables, call: Call, at: string, expires: string): Tables {
    match call
    case Enqueue(r, schedule, payload) => Insert(q, r, schedule, payload, at)
    case Claim(worker, _, picked) =>
      if picked != None && picked.value in q.jobs then ClaimRow(q, worker, picked.value, at, expires) else q
    case Ack(r, worker, success, message) => AckRow(q, r, worker, success, message, at)
    case Heartbeat(r, worker, _) => HeartbeatRow(q, r, worker, at, expires)
    case Reap => ReapRows(q, at)
    case Cancel(r) => CancelRow(q, r, at)
  }

  function Visibility(call: Call): nat {
    if call.Claim? || call.Heartbeat? then call.visibility else 0
  }

  // ----- Runs of the queue -----

  /** A call with the time it comes at, and the stamps it writes and compares. */
  datatype Timed = Timed(now: nat, call: Call, at: string, expires: string)

  function Step(q: Tables, c: Timed): Tables {
    Write(q, c.call, c.at, c.expires)
  }

  /** The tables after all of `calls`. */
  function Run(q: Tables, calls: seq<Timed>): Tables
    decreases |calls|
  {
    if calls == [] then q else Run(Step(q, calls[0]), calls[1..])
  }

  /** Every call is possible when it comes. */
  predicate Legal(q: Tables, calls: seq<Timed>)
    decreases |calls|
  {
    calls != [] ==> Possible(q, calls[0].call) && Legal(Step(q, calls[0]), calls[1..])
  }

  /** The stamps are the clock as `stamp` writes it, and the clock never goes back. */
  ghost predicate Clocked(stamp: nat -> string, calls: seq<Timed>) {
    && (forall c :: c in calls ==> c.at == stamp(c.now) && c.expires == stamp(c.now + Visibility(c.call)))
    && (forall i, j :: 0 <= i <= j < |calls| ==> calls[i].now <= calls[j].now)
  }

  const EMPTY := Tables(map[], map[])

  // ----- Settled once -----

  /** A settled job's row never changes again, whatever is called. */
  lemma SettledStays(q: Tables, call: Call, at: string, expires: string, r: string)
    requires Possible(q, call) && r in q.jobs && q.jobs[r].status.Terminal()
    ensures r in Write(q, call, at, expires).jobs && Write(q, call, at, expires).jobs[r] == q.jobs[r]
  {
  }

  /** Over every run, a job that has left {pending, claimed} keeps its row for ever, and is never claimed. */
  lemma {:induction false} SettledForGood(q: Tables, calls: seq<Timed>, r: string)
    requires Legal(q, calls) && r in q.jobs && q.jobs[r].status.Terminal()
    ensures r in Run(q, calls).jobs && Run(q, calls).jobs[r] == q.jobs[r]
    ensures NeverClaimed(calls, r)
    decreases |calls|
  {
    if calls != [] {
      assert calls == [calls[0]] + calls[1..];
      SettledStays(q, calls[0].call, calls[0].at, calls[0].expires, r);
      SettledForGood(Step(q, calls[0]), calls[1..], r);
    }
  }

  ghost predicate NeverClaimed(calls: seq<Timed>, r: string) {
    forall c :: c in calls && c.call.Claim? ==> c.call.picked != Some(r)
  }

  /** The only ways a row changes its status. */
  ghost predicate Moves(before: Job, after: JobStatus, call: Call, r: string) {
    || after == before.status
    || (before.status == Pending && after == Claimed && call.Claim? && call.picked == Some(r))
    || (before.status == Claimed && after == Pending && call.Reap?)
    || (before.status == Claimed && call.Ack? && call.runID == r && call.worker == before.claimedBy
        && after == if call.success then Done else Failed)
    || (!before.status.Terminal() && after == Canceled && call == Cancel(r))
  }

  lemma OnlyMoves(q: Tables, call: Call, at: string, expires: string, r: string)
    requires Possible(q, call) && r in q.jobs
    ensures r in Write(q, call, at, expires).jobs
    ensures Moves(q.jobs[r], Write(q, call, at, expires).jobs[r].status, call, r)
    ensures Write(q, call, at, expires).jobs[r].payload == q.jobs[r].payload
    ensures Write(q, call, at, expires).jobs[r].enqueuedAt == q.jobs[r].enqueuedAt
  {
  }

  /** Acknowledged or kept alive by anyone but the owner, enqueued when it is known, or canceled when it is not in
    * flight. */
  predicate Inert(q: Tables, call: Call) {
    match call
    case Enqueue(r, _, _) => r in q.jobs
    case Ack(r, worker, _, _) => !Owns(q, r, worker)
    case Heartbeat(r, worker, _) => !Owns(q, r, worker)
    case Cancel(r) => r !in q.jobs || q.jobs[r].status.Terminal()
    case Claim(_, _, picked) => picked == None
    case Reap => false
  }

  /** The calls without those that are inert when they come. */
  function Effective(q: Tables, calls: seq<Timed>): seq<Timed>
    decreases |calls|
  {
    if calls == [] then []
    else if Inert(q, calls[0].call) then Effective(q, calls[1..])
    else [calls[0]] + Effective(Step(q, calls[0]), calls[1..])
  }

  lemma InertStep(q: Tables, c: Timed)
    requires Inert(q, c.call)
    ensures Step(q, c) == q
  {
  }

  /** Over every run the inert calls might as well not have come. */
  lemma {:induction false} InertChangeNothing(q: Tables, calls: seq<Timed>)
    ensures Run(q, Effective(q, calls)) == Run(q, calls)
    decreases |calls|
  {
    if calls != [] {
      var rest := calls[1..];
      if Inert(q, calls[0].call) {
        InertStep(q, calls[0]);
        InertChangeNothing(q, rest);
      } else {
        InertChangeNothing(Step(q, calls[0]), rest);
        assert ([calls[0]] + Effective(Step(q, calls[0]), rest))[1..] == Effective(Step(q, calls[0]), rest);
      }
    }
  }

  // ----- The shape of rows -----

  ghost predicate JobShape(j: Job) {
    && (j.claimExpiresAt != None <==> j.status == Claimed)
    && (j.completedAt != None <==> j.status.Terminal())
    && (j.status == Pending ==> j.claimedBy == "" && j.claimedAt == None)
    && (j.status == Claimed ==> j.claimedBy != "" && j.claimedAt != None && j.attempt > 0)
  }

  /** Every row has its shape, and the owner of a claimed job is registered. */
  ghost predicate Shape(q: Tables) {
    forall r :: r in q.jobs ==> JobShape(q.jobs[r]) && (q.jobs[r].status == Claimed ==> q.jobs[r].claimedBy in q.workers)
  }

  lemma WriteKeepsShape(q: Tables, call: Call, at: string, expires: string)
    requires Shape(q) && Possible(q, call)
    ensures Shape(Write(q, call, at, expires))
  {
    var t := Write(q, call, at, expires);
    forall r | r in t.jobs ensures JobShape(t.jobs[r]) && (t.jobs[r].status == Claimed ==> t.jobs[r].claimedBy in t.workers) {
      if r in q.jobs { assert JobShape(q.jobs[r]); }
    }
  }

  /** In every reachable state: an expiry stamp exactly on claimed rows, a completion stamp exactly on settled
    * ones, no owner on pending ones, a registered owner on claimed ones. */
  lemma {:induction false} RunKeepsShape(q: Tables, calls: seq<Timed>)
    requires Shape(q) && Legal(q, calls)
    ensures Shape(Run(q, calls))
    decreases |calls|
  {
    if calls != [] {
      WriteKeepsShape(q, calls[0].call, calls[0].at, calls[0].expires);
      RunKeepsShape(Step(q, calls[0]), calls[1..]);
    }
  }

  // ----- Conservation -----

  const ATTEMPTS: Job -> real := (j: Job) => j.attempt as real
  const FAILURES: Job -> real := (j: Job) => if j.status == Failed then 1.0 else 0.0
  const RUNS_TOTAL: Worker -> real := (w: Worker) => w.runsTotal as real
  const RUNS_FAILED: Worker -> real := (w: Worker) => w.runsFailed as real

  /** Claims handed out are claims received, and failures reported are failed jobs. */
  ghost predicate Conserved(q: Tables) {
    && Sum(q.jobs, ATTEMPTS) == Sum(q.workers, RUNS_TOTAL)
    && Sum(q.jobs, FAILURES) == Sum(q.workers, RUNS_FAILED)
  }

  lemma JobWrite(jobs: map<string, Job>, r: string, j: Job)
    ensures Sum(jobs[r := j], ATTEMPTS) == Sum(jobs, ATTEMPTS) + ATTEMPTS(j) - if r in jobs then ATTEMPTS(jobs[r]) else 0.0
    ensures Sum(jobs[r := j], FAILURES) == Sum(jobs, FAILURES) + FAILURES(j) - if r in jobs then FAILURES(jobs[r]) else 0.0
  {
    SumAfter(jobs, ATTEMPTS, r, j);
    SumAfter(jobs, FAILURES, r, j);
  }

  lemma WorkerWrite(workers: map<string, Worker>, id: string, w: Worker)
    ensures Sum(workers[id := w], RUNS_TOTAL)
         == Sum(workers, RUNS_TOTAL) + RUNS_TOTAL(w) - if id in workers then RUNS_TOTAL(workers[id]) else 0.0
    ensures Sum(workers[id := w], RUNS_FAILED)
         == Sum(workers, RUNS_FAILED) + RUNS_FAILED(w) - if id in workers then RUNS_FAILED(workers[id]) else 0.0
  {
    SumAfter(workers, RUNS_TOTAL, id, w);
    SumAfter(workers, RUNS_FAILED, id, w);
  }

  lemma ClaimConserves(q: Tables, worker: string, r: string, at: string, expires: string)
    requires Conserved(q) && IsPending(q, r)
    ensures Conserved(ClaimRow(q, worker, r, at, expires))
  {
    var t := ClaimRow(q, worker, r, at, expires);
    JobWrite(q.jobs, r, t.jobs[r]);
    WorkerWrite(q.workers, worker, t.workers[worker]);
  }

  lemma AckConserves(q: Tables, r: string, worker: string, success: bool, message: string, at: string)
    requires Conserved(q) && Owns(q, r, worker) && worker in q.workers
    ensures Conserved(AckRow(q, r, worker, success, message, at))
  {
    var t := AckRow(q, r, worker, success, message, at);
    JobWrite(q.jobs, r, t.jobs[r]);
    WorkerWrite(q.workers, worker, t.workers[worker]);
  }

  lemma HeartbeatConserves(q: Tables, r: string, worker: string, at: string, expires: string)
    requires Conserved(q) && Owns(q, r, worker) && worker in q.workers
    ensures Conserved(HeartbeatRow(q, r, worker, at, expires))
  {
    var t := HeartbeatRow(q, r, worker, at, expires);
    JobWrite(q.jobs, r, t.jobs[r]);
    WorkerWrite(q.workers, worker, t.workers[worker]);
  }

  lemma ReapConserves(q: Tables, at: string)
    requires Conserved(q)
    ensures Conserved(ReapRows(q, at))
  {
    SumSame(q.jobs, ReapRows(q, at).jobs, ATTEMPTS);
    SumSame(q.jobs, ReapRows(q, at).jobs, FAILURES);
  }

  lemma CancelConserves(q: Tables, r: string, at: string)
    requires Conserved(q)
    ensures Conserved(CancelRow(q, r, at))
  {
    if r in q.jobs { JobWrite(q.jobs, r, CancelRow(q, r, at).jobs[r]); }
  }

  lemma WriteConserves(q: Tables, call: Call, at: string, expires: string)
    requires Shape(q) && Conserved(q) && Possible(q, call)
    ensures Conserved(Write(q, call, at, expires))
  {
    match call {
      case Enqueue(r, schedule, payload) =>
        JobWrite(q.jobs, r, NewJob(schedule, payload, at));
      case Claim(worker, _, picked) =>
        if picked != None { ClaimConserves(q, worker, picked.value, at, expires); }
      case Ack(r, worker, success, message) =>
        if Owns(q, r, worker) { AckConserves(q, r, worker, success, message, at); }
      case Heartbeat(r, worker, _) =>
        if Owns(q, r, worker) { HeartbeatConserves(q, r, worker, at, expires); }
      case Reap =>
        ReapConserves(q, at);
      case Cancel(r) =>
        CancelConserves(q, r, at);
    }
  }

  /** In every reachable state the attempts of all jobs are the runs of all workers, and the failed runs of all
    * workers are the failed jobs. */
  lemma {:induction false} RunConserves(q: Tables, calls: seq<Timed>)
    requires Shape(q) && Conserved(q) && Legal(q, calls)
    ensures Conserved(Run(q, calls))
    decreases |calls|
  {
    if calls != [] {
      WriteConserves(q, calls[0].call, calls[0].at, calls[0].expires);
      WriteKeepsShape(q, calls[0].call, calls[0].at, calls[0].expires);
      RunConserves(Step(q, calls[0]), calls[1..]);
    }
  }

  lemma EmptyConserved()
    ensures Shape(EMPTY) && Conserved(EMPTY) && forall worker :: Covered(EMPTY, worker)
  {
  }

  // ----- A worker's own counters -----

  /** 1 for a job the worker holds. */
  function Held(worker: string): Job -> real {
    (j: Job) => if j.status == Claimed && j.claimedBy == worker then 1.0 else 0.0
  }

  function RunsOf(q: Tables, worker: string): real {
    if worker in q.workers then q.workers[worker].runsTotal as real else 0.0
  }

  function FailuresOf(q: Tables, worker: string): real {
    if worker in q.workers then q.workers[worker].runsFailed as real else 0.0
  }

  /** The runs a worker failed and the jobs it holds are together no more than the runs it was given. */
  ghost predicate Covered(q: Tables, worker: string) {
    FailuresOf(q, worker) + Sum(q.jobs, Held(worker)) <= RunsOf(q, worker)
  }

  lemma ReapCovers(q: Tables, at: string, worker: string)
    requires Covered(q, worker)
    ensures Covered(ReapRows(q, at), worker)
  {
    SumLess(ReapRows(q, at).jobs, q.jobs, Held(worker));
  }

  lemma ClaimCovers(q: Tables, w: string, r: string, at: string, expires: string, worker: string)
    requires Covered(q, worker) && IsPending(q, r)
    ensures Covered(ClaimRow(q, w, r, at, expires), worker)
  {
    SumAfter(q.jobs, Held(worker), r, ClaimRow(q, w, r, at, expires).jobs[r]);
  }

  lemma AckCovers(q: Tables, r: string, w: string, success: bool, message: string, at: string, worker: string)
    requires Covered(q, worker)
    ensures Covered(AckRow(q, r, w, success, message, at), worker)
  {
    if Owns(q, r, w) { SumAfter(q.jobs, Held(worker), r, AckRow(q, r, w, success, message, at).jobs[r]); }
  }

  lemma HeartbeatCovers(q: Tables, r: string, w: string, at: string, expires: string, worker: string)
    requires Covered(q, worker)
    ensures Covered(HeartbeatRow(q, r, w, at, expires), worker)
  {
    if Owns(q, r, w) { SumAfter(q.jobs, Held(worker), r, HeartbeatRow(q, r, w, at, expires).jobs[r]); }
  }

  lemma WriteCovers(q: Tables, call: Call, at: string, expires: string, worker: string)
    requires Possible(q, call) && Covered(q, worker)
    ensures Covered(Write(q, call, at, expires), worker)
  {
    match call {
      case Enqueue(r, schedule, payload) => SumAfter(q.jobs, Held(worker), r, NewJob(schedule, payload, at));
      case Claim(w, _, picked) => if picked != None { ClaimCovers(q, w, picked.value, at, expires, worker); }
      case Ack(r, w, success, message) => AckCovers(q, r, w, success, message, at, worker);
      case Heartbeat(r, w, _) => HeartbeatCovers(q, r, w, at, expires, worker);
      case Reap => ReapCovers(q, at, worker);
      case Cancel(r) => if r in q.jobs { SumAfter(q.jobs, Held(worker), r, CancelRow(q, r, at).jobs[r]); }
    }
  }

  /** In every reachable state no worker has failed, and holds, more jobs together than it was ever given. */
  lemma {:induction false} RunCovers(q: Tables, calls: seq<Timed>, worker: string)
    requires Legal(q, calls) && Covered(q, worker)
    ensures Covered(Run(q, calls), worker)
    decreases |calls|
  {
    if calls != [] {
      WriteCovers(q, calls[0].call, calls[0].at, calls[0].expires, worker);
      RunCovers(Step(q, calls[0]), calls[1..], worker);
    }
  }

  // ----- What is written when -----

  /** A row appears only by an enqueue, pending and never claimed; a completion is stamped when the job settles; an
    * attempt is counted, and owner, claim and expiry are stamped, when it is claimed; otherwise an expiry moves only
    * for its owner's heartbeat. */
  lemma StampsAre(q: Tables, call: Call, at: string, expires: string, r: string)
    requires Possible(q, call) && Shape(q) && r in Write(q, call, at, expires).jobs
    ensures var k := Write(q, call, at, expires).jobs[r];
            && (r !in q.jobs ==> call.Enqueue? && call.runID == r && k.status == Pending && k.attempt == 0
                                 && k.enqueuedAt == at && k.schedule == call.schedule && k.payload == call.payload)
            && (r in q.jobs && k.status != q.jobs[r].status && k.status.Terminal() ==>
                  k.completedAt == Some(at) && k.lastError == if call.Ack? then call.message else "canceled")
            && (r in q.jobs && k.attempt != q.jobs[r].attempt ==>
                  k.attempt == q.jobs[r].attempt + 1 && call.Claim? && k.claimedBy == call.worker
                  && k.claimedAt == Some(at) && k.claimExpiresAt == Some(expires))
            && (r in q.jobs && k.status == q.jobs[r].status == Claimed && k.claimExpiresAt != q.jobs[r].claimExpiresAt ==>
                  Renews(call, r, q.jobs[r].claimedBy) && k.claimExpiresAt == Some(expires))
  {
    if r in q.jobs { assert JobShape(q.jobs[r]); }
  }

  /** A claim: the job's row and the worker's, column by column, and no other row. */
  lemma ClaimWrites(q: Tables, worker: string, visibility: nat, r: string, at: string, expires: string)
    requires Possible(q, Claim(worker, visibility, Some(r)))
    ensures var t := Write(q, Claim(worker, visibility, Some(r)), at, expires);
            && t.jobs == q.jobs[r := q.jobs[r].(status := Claimed, claimedAt := Some(at), claimedBy := worker,
                                                claimExpiresAt := Some(expires), attempt := q.jobs[r].attempt + 1)]
            && t.workers == q.workers[worker := (
                 if worker in q.workers then
                   q.workers[worker].(lastSeen := at, currentRun := r, claimedAt := at, runsTotal := q.workers[worker].runsTotal + 1)
                 else Worker(at, r, at, 1, 0))]
  {
  }

  lemma AckWrites(q: Tables, r: string, worker: string, success: bool, message: string, at: string, expires: string)
    requires Owns(q, r, worker)
    ensures var t := Write(q, Ack(r, worker, success, message), at, expires);
            && t.jobs == q.jobs[r := q.jobs[r].(status := if success then Done else Failed, completedAt := Some(at),
                                                lastError := message, claimExpiresAt := None)]
            && t.workers == if worker !in q.workers then q.workers
                            else if success then q.workers[worker := q.workers[worker].(lastSeen := at, currentRun := "")]
                            else q.workers[worker := q.workers[worker].(lastSeen := at, currentRun := "",
                                                                        runsFailed := q.workers[worker].runsFailed + 1)]
  {
  }

  lemma HeartbeatWrites(q: Tables, r: string, worker: string, visibility: nat, at: string, expires: string)
    requires Owns(q, r, worker)
    ensures var t := Write(q, Heartbeat(r, worker, visibility), at, expires);
            && t.jobs == q.jobs[r := q.jobs[r].(claimExpiresAt := Some(expires))]
            && t.workers == if worker !in q.workers then q.workers
                            else q.workers[worker := q.workers[worker].(lastSeen := at)]
  {
  }

  /** A reap gives back the claims whose expiry is less than its stamp, keeps their history, and touches nothing else. */
  lemma ReapWrites(q: Tables, at: string, expires: string)
    ensures var t := Write(q, Reap, at, expires);
            && t.workers == q.workers && t.jobs.Keys == q.jobs.Keys
            && forall r :: r in q.jobs ==>
                 t.jobs[r] == if q.jobs[r].status == Claimed && q.jobs[r].claimExpiresAt != None
                                 && TextLess(q.jobs[r].claimExpiresAt.value, at)
                              then q.jobs[r].(status := Pending, claimedBy := "", claimedAt := None, claimExpiresAt := None)
                              else q.jobs[r]
  {
  }

  lemma CancelWrites(q: Tables, r: string, at: string, expires: string)
    requires r in q.jobs && q.jobs[r].status in {Pending, Claimed} && JobShape(q.jobs[r])
    ensures var t := Write(q, Cancel(r), at, expires);
            && t.workers == q.workers
            && t.jobs == q.jobs[r := q.jobs[r].(status := Canceled, completedAt := Some(at), lastError := "canceled",
                                                claimExpiresAt := None)]
  {
  }

  lemma EnqueueWrites(q: Tables, r: string, schedule: string, payload: Payload, at: string, expires: string)
    ensures Write(q, Enqueue(r, schedule, payload), at, expires) ==
              if r in q.jobs then q
              else Tables(q.jobs[r := Job(schedule, payload, Pending, at, None, "", None, 0, "", None)], q.workers)
  {
  }

  // ----- Order -----

  /** A claim never passes over a job for one enqueued in a later second; and it passes over an earlier one at
    * all only within one second, when the earlier stamp's digits are a proper prefix of the later one's. */
  lemma ClaimOrder(q: Tables, picked: string, other: string, s: nat, t: nat)
    requires Oldest(q, picked) && IsPending(q, other)
    requires q.jobs[other].enqueuedAt == Format(s) && q.jobs[picked].enqueuedAt == Format(t)
    requires FourDigitYear(t)
    ensures t / NANOS <= s / NANOS
    ensures s < t ==> s / NANOS == t / NANOS && ProperPrefix(FractionDigits(s % NANOS), FractionDigits(t % NANOS))
  {
    if s < t { TextOrderIff(s, t); }
  }

  /** Of any rows, one whose text no other row's is less than. */
  lemma {:induction false} TextualMinimum(rows: set<string>, text: string -> string) returns (least: string)
    requires rows != {}
    ensures least in rows && forall r :: r in rows ==> !TextLess(text(r), text(least))
    decreases |rows|
  {
    var first :| first in rows;
    var rest := rows - {first};
    assert forall r :: r in rows ==> r == first || r in rest;
    NotBoth(text(first), text(first));
    if rest == {} {
      least := first;
    } else {
      least := TextualMinimum(rest, text);
      if TextLess(text(first), text(least)) {
        forall r | r in rest ensures !TextLess(text(r), text(first)) {
          if TextLess(text(r), text(first)) { TextLessOn(text(r), text(first), text(least)); }
        }
        least := first;
      }
    }
  }

  /** When some pending row's text is less than `e`'s, a claim may pick a row that does not have `e`'s text. */
  lemma Overtaker(q: Tables, e: string, b: string) returns (p: string)
    requires IsPending(q, e) && IsPending(q, b) && TextLess(q.jobs[b].enqueuedAt, q.jobs[e].enqueuedAt)
    ensures Oldest(q, p) && q.jobs[p].enqueuedAt != q.jobs[e].enqueuedAt
  {
    var rows := set r | r in q.jobs && IsPending(q, r);
    var text := (r: string) => if r in q.jobs then q.jobs[r].enqueuedAt else "";
    assert b in rows;
    p := TextualMinimum(rows, text);
    forall other | other in q.jobs && IsPending(q, other) ensures !TextLess(q.jobs[other].enqueuedAt, q.jobs[p].enqueuedAt) {
      assert !TextLess(text(other), text(p));
    }
    assert !TextLess(text(b), text(p));
  }

  /** `e` was enqueued no later than any pending job; the pending rows hold the stamps of the times in `t`. */
  ghost predicate Earliest(q: Tables, t: string -> nat, e: string) {
    && IsPending(q, e)
    && forall r :: IsPending(q, r) ==> q.jobs[r].enqueuedAt == Format(t(r)) && FourDigitYear(t(r)) && t(e) <= t(r)
  }

  /** `b` is pending, of the same second as `e`, and the digits of `e` are a proper prefix of its own. */
  predicate Overtakes(q: Tables, t: string -> nat, e: string, b: string) {
    && IsPending(q, b)
    && t(b) / NANOS == t(e) / NANOS
    && ProperPrefix(FractionDigits(t(e) % NANOS), FractionDigits(t(b) % NANOS))
  }

  lemma OvertakenByOne(q: Tables, t: string -> nat, e: string, b: string) returns (p: string)
    requires Earliest(q, t, e) && Overtakes(q, t, e, b)
    ensures Oldest(q, p) && t(p) != t(e)
  {
    assert t(e) <= t(b) && t(e) != t(b);
    TextOrderWithinSecond(t(e), t(b));
    p := Overtaker(q, e, b);
  }

  lemma OnlyOvertakers(q: Tables, t: string -> nat, e: string, p: string)
    requires Earliest(q, t, e) && Oldest(q, p) && t(p) != t(e)
    ensures Overtakes(q, t, e, p)
  {
    assert t(e) < t(p);
    TextOrderIff(t(e), t(p));
  }

  /** Whatever row its SELECT happens to return, a claim takes a job enqueued first exactly when no pending job of the
    * same second has digits of which the first one's are a proper prefix. */
  lemma ClaimInOrderIff(q: Tables, t: string -> nat, e: string)
    requires Earliest(q, t, e)
    ensures (forall p :: Oldest(q, p) ==> t(p) == t(e)) <==> !exists b :: Overtakes(q, t, e, b)
  {
    if b :| Overtakes(q, t, e, b) {
      var p := OvertakenByOne(q, t, e, b);
    }
    forall p | Oldest(q, p) && t(p) != t(e) ensures Overtakes(q, t, e, p) {
      OnlyOvertakers(q, t, e, p);
    }
  }

  /** An instance: of a job enqueued on a whole second and one half a second later, a claim takes the later. */
  lemma ClaimOvertakes(schedule: string, payload: Payload, worker: string, visibility: nat)
    requires worker != ""
    ensures var q := Tables(map["first" := NewJob(schedule, payload, Format(0)),
                                "second" := NewJob(schedule, payload, Format(NANOS / 2))], map[]);
            && Possible(q, Claim(worker, visibility, Some("second")))
            && !Possible(q, Claim(worker, visibility, Some("first")))
  {
    WholeSecondLast(0, NANOS / 2);
    SecondIsOldest(NewJob(schedule, payload, Format(0)), NewJob(schedule, payload, Format(NANOS / 2)));
  }

  lemma SecondIsOldest(first: Job, second: Job)
    requires first.status == second.status == Pending && TextLess(second.enqueuedAt, first.enqueuedAt)
    ensures Oldest(Tables(map["first" := first, "second" := second], map[]), "second")
    ensures !Oldest(Tables(map["first" := first, "second" := second], map[]), "first")
  {
    NotBoth(second.enqueuedAt, first.enqueuedAt);
    NotBoth(second.enqueuedAt, second.enqueuedAt);
    assert IsPending(Tables(map["first" := first, "second" := second], map[]), "second");
  }

  // ----- Leases -----

  /** `worker` holds `r`, and its row expires at the stamp `text`. */
  ghost predicate HeldTill(q: Tables, r: string, worker: string, text: string) {
    Owns(q, r, worker) && q.jobs[r].claimExpiresAt == Some(text)
  }

  /** The owner acknowledges the job, or the run is canceled. */
  predicate Settles(call: Call, r: string, worker: string) {
    call == Cancel(r) || (call.Ack? && call.runID == r && call.worker == worker)
  }

  predicate Renews(call: Call, r: string, worker: string) {
    call.Heartbeat? && call.runID == r && call.worker == worker
  }

  /** Neither acknowledged by its owner nor canceled. */
  ghost predicate NotSettled(calls: seq<Timed>, r: string, worker: string) {
    forall c :: c in calls ==> !Settles(c.call, r, worker)
  }

  /** The expiry stamp after `calls`. */
  function RenewedText(calls: seq<Timed>, r: string, worker: string, text: string): string {
    if calls == [] then text
    else RenewedText(calls[1..], r, worker, if Renews(calls[0].call, r, worker) then calls[0].expires else text)
  }

  /** No reap finds the expiry stamp, as renewed so far, in the past. */
  ghost predicate Unlapsed(calls: seq<Timed>, r: string, worker: string, text: string)
    decreases |calls|
  {
    calls != [] ==>
      && (calls[0].call.Reap? ==> !TextLess(text, calls[0].at))
      && Unlapsed(calls[1..], r, worker, if Renews(calls[0].call, r, worker) then calls[0].expires else text)
  }

  lemma HeldTillStep(q: Tables, call: Call, at: string, expires: string, r: string, worker: string, text: string)
    requires Possible(q, call) && HeldTill(q, r, worker, text)
    requires call.Reap? ==> !TextLess(text, at)
    ensures Settles(call, r, worker) ==>
              r in Write(q, call, at, expires).jobs && Write(q, call, at, expires).jobs[r].status.Terminal()
    ensures !Settles(call, r, worker) ==>
              HeldTill(Write(q, call, at, expires), r, worker, if Renews(call, r, worker) then expires else text)
    ensures !(call.Claim? && call.picked == Some(r))
  {
  }

  /** A lease no reap finds lapsed is never lost: no claim gets the job, and its worker holds it until it
    * acknowledges it or the run is canceled. */
  lemma {:induction false} UnlapsedKept(q: Tables, calls: seq<Timed>, r: string, worker: string, text: string)
    requires Legal(q, calls) && HeldTill(q, r, worker, text) && Unlapsed(calls, r, worker, text)
    ensures NotSettled(calls, r, worker) ==> HeldTill(Run(q, calls), r, worker, RenewedText(calls, r, worker, text))
    ensures NeverClaimed(calls, r)
    decreases |calls|
  {
    if calls != [] {
      var c, rest := calls[0], calls[1..];
      assert calls == [c] + rest;
      HeldTillStep(q, c.call, c.at, c.expires, r, worker, text);
      if Settles(c.call, r, worker) {
        SettledForGood(Step(q, c), rest, r);
      } else {
        UnlapsedKept(Step(q, c), rest, r, worker, if Renews(c.call, r, worker) then c.expires else text);
      }
    }
  }

  // ----- Leases by the clock -----

  /** When the lease runs out once `c` has come. */
  function Renewed(c: Timed, r: string, worker: string, e: nat): nat {
    if Renews(c.call, r, worker) then c.now + c.call.visibility else e
  }

  function RenewedByAll(calls: seq<Timed>, r: string, worker: string, e: nat): nat {
    if calls == [] then e else RenewedByAll(calls[1..], r, worker, Renewed(calls[0], r, worker, e))
  }

  /** No reap comes within a second of the lease's end, as renewed so far. */
  ghost predicate KeptAlive(calls: seq<Timed>, r: string, worker: string, e: nat)
    decreases |calls|
  {
    calls != [] ==>
      && (calls[0].call.Reap? ==> calls[0].now + NANOS <= e && FourDigitYear(e))
      && KeptAlive(calls[1..], r, worker, Renewed(calls[0], r, worker, e))
  }

  /** A stamp a second or more ahead is not less. */
  ghost predicate SparesEarly(stamp: nat -> string) {
    forall now: nat, e: nat :: now + NANOS <= e && FourDigitYear(e) ==> !TextLess(stamp(e), stamp(now))
  }

  /** The store's stamps qualify. */
  lemma FormatSparesEarly()
    ensures SparesEarly(Format)
  {
    forall now: nat, e: nat | now + NANOS <= e && FourDigitYear(e) ensures !TextLess(Format(e), Format(now)) {
      EarlierSecondFirst(now, e);
    }
  }

  lemma ClockedTail(stamp: nat -> string, calls: seq<Timed>)
    requires Clocked(stamp, calls) && calls != []
    ensures Clocked(stamp, calls[1..])
    ensures calls[0].at == stamp(calls[0].now) && calls[0].expires == stamp(calls[0].now + Visibility(calls[0].call))
  {
    assert calls[0] in calls;
    forall c | c in calls[1..] ensures c in calls {
    }
  }

  lemma {:induction false} KeptAliveUnlapsed(stamp: nat -> string, calls: seq<Timed>, r: string, worker: string, e: nat)
    requires SparesEarly(stamp) && Clocked(stamp, calls) && KeptAlive(calls, r, worker, e)
    ensures Unlapsed(calls, r, worker, stamp(e))
    ensures RenewedText(calls, r, worker, stamp(e)) == stamp(RenewedByAll(calls, r, worker, e))
    decreases |calls|
  {
    if calls != [] {
      ClockedTail(stamp, calls);
      KeptAliveUnlapsed(stamp, calls[1..], r, worker, Renewed(calls[0], r, worker, e));
    }
  }

  /** A lease kept alive is never lost: while no reap comes within a second of its end, no claim gets the job,
    * and its worker holds it until it acknowledges it or the run is canceled. */
  lemma LeaseKept(stamp: nat -> string, q: Tables, calls: seq<Timed>, r: string, worker: string, e: nat)
    requires SparesEarly(stamp)
    requires Legal(q, calls) && Clocked(stamp, calls) && HeldTill(q, r, worker, stamp(e)) && KeptAlive(calls, r, worker, e)
    ensures NotSettled(calls, r, worker) ==> HeldTill(Run(q, calls), r, worker, stamp(RenewedByAll(calls, r, worker, e)))
    ensures NeverClaimed(calls, r)
  {
    KeptAliveUnlapsed(stamp, calls, r, worker, e);
    UnlapsedKept(q, calls, r, worker, stamp(e));
  }

  lemma {:induction false} QuietLease(calls: seq<Timed>, r: string, worker: string, e: nat, last: nat)
    requires FourDigitYear(e) && last + NANOS <= e
    requires forall c :: c in calls ==> c.now <= last && !Renews(c.call, r, worker)
    ensures KeptAlive(calls, r, worker, e)
    decreases |calls|
  {
    if calls != [] {
      assert calls == [calls[0]] + calls[1..];
      QuietLease(calls[1..], r, worker, e, last);
    }
  }

  /** Exclusion: whoever claims a job that a worker's latest claim or heartbeat holds until `e` does so no
    * earlier than a second before `e`. */
  lemma NoClaimBeforeExpiry(stamp: nat -> string, q: Tables, calls: seq<Timed>, r: string, worker: string, e: nat)
    requires SparesEarly(stamp)
    requires Legal(q, calls) && Clocked(stamp, calls) && calls != [] && HeldTill(q, r, worker, stamp(e)) && FourDigitYear(e)
    requires forall c :: c in calls ==> !Renews(c.call, r, worker)
    requires var last := calls[|calls| - 1]; last.call.Claim? && last.call.picked == Some(r)
    ensures e < calls[|calls| - 1].now + NANOS
  {
    var last := calls[|calls| - 1];
    if last.now + NANOS <= e {
      forall c | c in calls ensures c.now <= last.now {
        var i :| 0 <= i < |calls| && calls[i] == c;
      }
      QuietLease(calls, r, worker, e, last.now);
      LeaseKept(stamp, q, calls, r, worker, e);
      assert false;
    }
  }

  lemma ReapsWhenLess(q: Tables, r: string, worker: string, text: string, at: string)
    requires HeldTill(q, r, worker, text)
    ensures r in ReapRows(q, at).jobs
    ensures ReapRows(q, at).jobs[r] == if TextLess(text, at) then Freed(q.jobs[r]) else q.jobs[r]
  {
  }

  /** The first reap a second or more after the lease's end frees the job. */
  lemma ReapFrees(q: Tables, r: string, worker: string, e: nat, now: nat)
    requires HeldTill(q, r, worker, Format(e)) && e + NANOS <= now && FourDigitYear(now)
    ensures IsPending(ReapRows(q, Format(now)), r)
  {
    EarlierSecondFirst(e, now);
    ReapsWhenLess(q, r, worker, Format(e), Format(now));
  }

  /** Whether a reap at `now` frees a job held until `e`: by the second, and within one second by which stamp's
    * digits are a prefix of the other's. */
  predicate FreedAt(e: nat, now: nat) {
    if e / NANOS != now / NANOS then e / NANOS < now / NANOS
    else if e < now then !ProperPrefix(FractionDigits(e % NANOS), FractionDigits(now % NANOS))
    else now < e && ProperPrefix(FractionDigits(now % NANOS), FractionDigits(e % NANOS))
  }

  lemma LessIffFreed(e: nat, now: nat)
    requires FourDigitYear(e) && FourDigitYear(now)
    ensures TextLess(Format(e), Format(now)) <==> FreedAt(e, now)
  {
    if e < now {
      TextOrderIff(e, now);
    } else if now < e {
      TextOrderIff(now, e);
      NotBoth(Format(now), Format(e));
      OneOrOther(Format(now), Format(e));
    } else {
      NotBoth(Format(e), Format(e));
    }
  }

  /** Exactly when a reap frees a held job: it may come up to a second early, or leave the job up to a second
    * longer. */
  lemma ReapFreesIff(q: Tables, r: string, worker: string, e: nat, now: nat)
    requires HeldTill(q, r, worker, Format(e)) && FourDigitYear(e) && FourDigitYear(now)
    ensures IsPending(ReapRows(q, Format(now)), r) <==> FreedAt(e, now)
  {
    LessIffFreed(e, now);
    ReapsWhenLess(q, r, worker, Format(e), Format(now));
  }

  // ----- Heartbeats -----

  /** Heartbeats each at least a second before the end of the grant they follow, and so the last call. `last` is
    * the time of the latest grant and `v` its visibility. */
  ghost predicate Timely(calls: seq<Timed>, r: string, worker: string, last: nat, v: nat)
    decreases |calls|
  {
    calls != [] ==>
      var c := calls[0];
      && c.now + NANOS <= last + v
      && FourDigitYear(last + v)
      && if Renews(c.call, r, worker) then Timely(calls[1..], r, worker, c.now, c.call.visibility)
         else Timely(calls[1..], r, worker, last, v)
  }

  lemma {:induction false} TimelyKeepsAlive(calls: seq<Timed>, r: string, worker: string, last: nat, v: nat)
    requires Timely(calls, r, worker, last, v)
    ensures KeptAlive(calls, r, worker, last + v)
    decreases |calls|
  {
    if calls != [] {
      if Renews(calls[0].call, r, worker) {
        TimelyKeepsAlive(calls[1..], r, worker, calls[0].now, calls[0].call.visibility);
      } else {
        TimelyKeepsAlive(calls[1..], r, worker, last, v);
      }
    }
  }

  /** A claim grants a lease. */
  lemma ClaimHolds(q: Tables, worker: string, visibility: nat, r: string, at: string, expires: string)
    requires Possible(q, Claim(worker, visibility, Some(r)))
    ensures HeldTill(Write(q, Claim(worker, visibility, Some(r)), at, expires), r, worker, expires)
  {
  }

  lemma TimelyKeepsLease(stamp: nat -> string, q: Tables, calls: seq<Timed>, r: string, worker: string,
                                            last: nat, v: nat)
    requires SparesEarly(stamp) && Legal(q, calls) && Clocked(stamp, calls)
    requires HeldTill(q, r, worker, stamp(last + v)) && Timely(calls, r, worker, last, v)
    ensures NeverClaimed(calls, r)
    ensures NotSettled(calls, r, worker) ==> Owns(Run(q, calls), r, worker)
  {
    TimelyKeepsAlive(calls, r, worker, last, v);
    LeaseKept(stamp, q, calls, r, worker, last + v);
  }

  /** A worker that claims a job and then sends its heartbeats in time keeps it: no one else ever claims it, and
    * it loses it only to a cancel or its own acknowledgement. */
  lemma TimelyWorkerKeepsJob(stamp: nat -> string, q: Tables, calls: seq<Timed>, r: string, worker: string)
    requires SparesEarly(stamp) && Legal(q, calls) && Clocked(stamp, calls)
    requires calls != [] && calls[0].call.Claim? && calls[0].call.worker == worker && calls[0].call.picked == Some(r)
    requires Timely(calls[1..], r, worker, calls[0].now, calls[0].call.visibility)
    ensures NeverClaimed(calls[1..], r)
    ensures NotSettled(calls[1..], r, worker) ==> Owns(Run(q, calls), r, worker)
  {
    ClockedTail(stamp, calls);
    ClaimHolds(q, worker, calls[0].call.visibility, r, calls[0].at, calls[0].expires);
    TimelyKeepsLease(stamp, Step(q, calls[0]), calls[1..], r, worker, calls[0].now, calls[0].call.visibility);
  }
}
