/** `walkDAG` itself: the shared variables, one method per step, and the walk over all of them. */
module Walker {
  import opened Dag
  import opened Walk
  import opened Wrappers

  // ----- The end of a walk -----

  /** Nothing is left running, so everything decided about has been received. */
  lemma AllReceived(p: Plan, s: State)
    requires Places(p, s) && s.running == 0
    ensures Done(s) == s.place.Keys
  {
    forall n | n in s.place ensures n in Done(s) {
      assert n !in Live(s);
    }
  }

  lemma DecidedIffDependsAre(p: Plan, s: State, n: string)
    requires Degrees(p, s) && s.coordinator.Waiting? && Done(s) == s.place.Keys && n in p.deps
    ensures n in s.place <==> forall d :: d in p.deps[n] ==> d in s.place
  {
    MissingNone(p.deps[n], Done(s));
  }

  lemma {:induction false} ReachedIsDecided(p: Plan, errs: Errors, s: State, n: string, k: nat)
    requires Degrees(p, s) && s.coordinator.Waiting? && Done(s) == s.place.Keys
    requires !Fate(p, errs, n, k).Unreached?
    ensures n in s.place
    decreases k
  {
    forall d | d in p.deps[n] ensures d in s.place {
      ReachedIsDecided(p, errs, s, d, k - 1);
    }
    DecidedIffDependsAre(p, s, n);
  }

  /** The walk ends having decided about exactly the reached tasks. */
  lemma EndDecides(p: Plan, errs: Errors, s: State)
    requires Places(p, s) && Degrees(p, s) && Verdicts(errs, Fates(p, errs), s)
    requires s.coordinator.Waiting? && s.running == 0
    ensures s.place.Keys == p.deps.Keys - UnreachedTasks(p, errs)
    ensures (set n | n in s.inDegree && s.inDegree[n] > 0) == UnreachedTasks(p, errs)
  {
    AllReceived(p, s);
    forall n | n in p.deps
      ensures n in s.place <==> !Meaning(p, errs, n).Unreached?
      ensures s.inDegree[n] > 0 <==> n !in s.place
    {
      if n in s.place {
        assert !Fates(p, errs)[n].Unreached?;
      } else if !Meaning(p, errs, n).Unreached? {
        ReachedIsDecided(p, errs, s, n, |p.deps|);
      }
    }
  }

  /** The tasks whose body ran, and what was reported for the others, as the meaning has it. */
  lemma EndVerdicts(p: Plan, errs: Errors, s: State)
    requires Verdicts(errs, Fates(p, errs), s) && s.skipped.Keys <= s.place.Keys
    requires s.place.Keys == p.deps.Keys - UnreachedTasks(p, errs)
    ensures s.place.Keys - s.skipped.Keys == RanTasks(p, errs)
    ensures forall n :: n in s.skipped <==> n in p.deps && Meaning(p, errs, n).Skipped?
    ensures forall n :: n in s.skipped ==> Meaning(p, errs, n) == Skipped(s.skipped[n])
  {
    forall n | n in s.place
      ensures Meaning(p, errs, n) == if n in s.skipped then Skipped(s.skipped[n]) else Ran(n in errs)
    {
      assert Fates(p, errs)[n] == Meaning(p, errs, n);
    }
  }

  ghost function FailedBodies(p: Plan, errs: Errors): set<string> {
    set n | n in RanTasks(p, errs) && n in errs
  }

  lemma RanReads(p: Plan, errs: Errors, n: string)
    requires Meaning(p, errs, n).Ran?
    ensures Meaning(p, errs, n) == Ran(n in errs)
  {
  }

  /** Behind every failed task there is a body that returned an error. */
  lemma {:induction false} FailureHasCause(p: Plan, errs: Errors, n: string, k: nat)
    requires Fate(p, errs, n, k).Failed()
    ensures FailedBodies(p, errs) != {}
    decreases k
  {
    EnoughLevels(p, errs, n, k);
    if Fate(p, errs, n, k).Ran? {
      assert n in FailedBodies(p, errs);
    } else {
      var failed := FailedWithin(p, errs, p.deps[n], k - 1);
      FirstFailedIs(p.deps[n], failed);
      FailureHasCause(p, errs, FirstFailed(p.deps[n], failed), k - 1);
    }
  }

  lemma EverythingSucceedsIff(p: Plan, errs: Errors)
    ensures UnreachedTasks(p, errs) == {} && FailedBodies(p, errs) == {} <==>
              forall n :: n in p.deps ==> Meaning(p, errs, n) == Ran(false)
  {
    if UnreachedTasks(p, errs) == {} && FailedBodies(p, errs) == {} {
      forall n | n in p.deps ensures Meaning(p, errs, n) == Ran(false) {
        if Meaning(p, errs, n).Failed() {
          FailureHasCause(p, errs, n, |p.deps|);
        }
        assert n !in UnreachedTasks(p, errs);
      }
    }
    if forall n :: n in p.deps ==> Meaning(p, errs, n) == Ran(false) {
      forall n | n in p.deps ensures n !in FailedBodies(p, errs) && n !in UnreachedTasks(p, errs) {
      }
    }
  }

  // ----- The program -----

  /** How often dependents[d] lists n. */
  ghost function Listed(dependents: map<string, seq<string>>, d: string, n: string): nat {
    multiset(Lookup(dependents, d))[n]
  }

  lemma ListedAfter(dependents: map<string, seq<string>>, dep: string, node: string, d: string, n: string)
    ensures Listed(dependents[dep := Lookup(dependents, dep) + [node]], d, n)
         == Listed(dependents, d, n) + if d == dep && n == node then 1 else 0
  {
    assert multiset(Lookup(dependents, dep) + [node]) == multiset(Lookup(dependents, dep)) + multiset{node};
  }

  /** The inner loop: one task's depends entries. */
  method AddEdges(node: string, ds: seq<string>, dependents: map<string, seq<string>>)
      returns (degree: int, extended: map<string, seq<string>>)
    ensures degree == |ds|
    ensures forall d, n :: Listed(extended, d, n) == Listed(dependents, d, n) + if n == node then multiset(ds)[d] else 0
  {
    degree, extended := 0, dependents;
    for i := 0 to |ds|
      invariant degree == i
      invariant forall d, n ::
        Listed(extended, d, n) == Listed(dependents, d, n) + if n == node then multiset(ds[..i])[d] else 0
    {
      ghost var before := extended;
      degree := degree + 1;
      extended := extended[ds[i] := Lookup(extended, ds[i]) + [node]];
      assert ds[..i + 1] == ds[..i] + [ds[i]];
      forall d, n
        ensures Listed(extended, d, n) == Listed(dependents, d, n) + if n == node then multiset(ds[..i + 1])[d] else 0
      {
        ListedAfter(before, ds[i], node, d, n);
      }
    }
    assert ds[..|ds|] == ds;
  }

  lemma ListedIsDependents(p: Plan, dependents: map<string, seq<string>>)
    requires forall d, n :: Listed(dependents, d, n) == if n in p.deps then multiset(p.deps[n])[d] else 0
    ensures DependentsOf(p, dependents)
  {
    forall d, n
      ensures n in p.deps ==> multiset(Lookup(dependents, d))[n] == multiset(p.deps[n])[d]
      ensures n in Lookup(dependents, d) ==> n in p.deps
    {
      assert Listed(dependents, d, n) == if n in p.deps then multiset(p.deps[n])[d] else 0;
      assert n in Lookup(dependents, d) ==> n in multiset(Lookup(dependents, d));
    }
  }

  /** The in-degrees and reversed edges, over the tasks in whatever order the map gives them. */
  method BuildEdges(p: Plan) returns (inDegree: map<string, int>, dependents: map<string, seq<string>>)
    ensures inDegree == map n | n in p.deps :: |p.deps[n]|
    ensures DependentsOf(p, dependents)
  {
    inDegree, dependents := map[], map[];
    var nodes := p.deps.Keys;
    while nodes != {}
      invariant nodes <= p.deps.Keys
      invariant inDegree == map n | n in p.deps && n !in nodes :: |p.deps[n]|
      invariant forall d, n ::
        Listed(dependents, d, n) == if n in p.deps && n !in nodes then multiset(p.deps[n])[d] else 0
      decreases nodes
    {
      var node :| node in nodes;
      nodes := nodes - {node};
      var degree;
      degree, dependents := AddEdges(node, p.deps[node], dependents);
      inDegree := inDegree[node := degree];
    }
    ListedIsDependents(p, dependents);
  }

  /** The inner loop that looks for a failed dependency. */
  method FindFailed(ds: seq<string>, failed: set<string>) returns (failedDep: string)
    ensures failedDep == FirstFailed(ds, failed)
    ensures (forall d :: d in ds ==> d !in failed) ==> failedDep == ""
    ensures (exists d :: d in ds && d in failed) ==>
              exists i :: (0 <= i < |ds| && ds[i] in failed && failedDep == ds[i] && forall j :: 0 <= j < i ==> ds[j] !in failed)
  {
    failedDep := "";
    for i := 0 to |ds|
      invariant FirstFailed(ds, failed) == FirstFailed(ds[i..], failed)
      invariant forall j :: 0 <= j < i ==> ds[j] !in failed
    {
      if ds[i] in failed {
        return ds[i];
      }
    }
  }

  /** The variables the goroutines share, and the tasks' positions. */
  class Shared {
    const p: Plan
    const errs: Errors
    const dependents: map<string, seq<string>>

    var inDegree: map<string, int>
    var failed: set<string>
    var firstErr: Option<string>
    var channel: seq<string>
    var running: int
    var coordinator: Coordinator
    var place: map<string, Place>
    var skipped: map<string, string>
    var log: seq<Event>

    ghost function Now(): State
      reads this
    {
      State(inDegree, failed, firstErr, channel, running, coordinator, place, skipped, log)
    }

    constructor (p: Plan, errs: Errors, inDegree: map<string, int>, dependents: map<string, seq<string>>)
      requires inDegree == map n | n in p.deps :: |p.deps[n]|
      ensures Initial(p, Now())
      ensures this.p == p && this.errs == errs && this.dependents == dependents
    {
      this.p, this.errs, this.dependents := p, errs, dependents;
      this.inDegree, failed, firstErr, channel, running := inDegree, {}, None, [], 0;
      coordinator, place, skipped, log := Seeding(p.deps.Keys), map[], map[], [];
    }

    /** running++ and a new goroutine for `node`. */
    method StartBody(node: string)
      modifies this
      ensures Now() == Launch(old(Now()), node)
    {
      running := running + 1;
      place := place[node := InBody];
      log := log + [Launched(node)];
    }

    /** One turn of the loop that launches the entry points. */
    method SeedOne(node: string)
      requires CanSeed(Now(), node)
      modifies this
      ensures Now() == Seed(old(Now()), node)
    {
      coordinator := Seeding(coordinator.rest - {node});
      if inDegree[node] == 0 {
        StartBody(node);
      }
    }

    /** A goroutine's body has returned: it takes the lock and records an error, if there is one. */
    method BodyReturns(node: string)
      requires At(Now(), node, InBody)
      modifies this
      ensures Now() == Return(errs, old(Now()), node)
    {
      if node in errs {
        if firstErr == None {
          firstErr := Some(errs[node]);
        }
        failed := failed + {node};
      }
      log := log + [Returned(node, node in errs)];
      place := place[node := AboutToSend];
    }

    /** A goroutine sends its completion: the channel has room for as many as there are tasks. */
    method SendDone(node: string)
      requires At(Now(), node, AboutToSend) && |channel| < |p.deps|
      modifies this
      ensures Now() == Send(old(Now()), node)
    {
      channel := channel + [node];
      place := place[node := Queued];
    }

    /** The coordinator takes one completion off the channel and counts it. */
    method ReceiveDone()
      requires CanReceive(Now())
      modifies this
      ensures Now() == Receive(dependents, old(Now()))
    {
      var completed := channel[0];
      channel := channel[1..];
      running := running - 1;
      place := place[completed := Received];
      coordinator := Scanning(Lookup(dependents, completed));
    }

    /** One turn of the loop over the dependents of a completed task. */
    method ScanOne()
      requires CanScan(p, Now())
      modifies this
      ensures Now() == Scan(p, old(Now()))
    {
      var dependent, rest := coordinator.todo[0], coordinator.todo[1..];
      inDegree := inDegree[dependent := inDegree[dependent] - 1];
      coordinator := Scanning(rest);
      if inDegree[dependent] == 0 {
        var failedDep := "";
        if dependent !in p.carryOn {
          failedDep := FindFailed(p.deps[dependent], failed);
        }
        if failedDep != "" {
          failed := failed + {dependent};
          log := log + [DepFailed(dependent, failedDep)];
          skipped := skipped[dependent := failedDep];
          running := running + 1;
          place := place[dependent := Held];
          coordinator := Sending(dependent, rest);
        } else {
          StartBody(dependent);
        }
      }
    }

    /** The coordinator itself sends the completion of a skipped dependent. */
    method SendSkip()
      requires coordinator.Sending? && |channel| < |p.deps|
      modifies this
      ensures Now() == SendSkipped(old(Now()))
    {
      channel := channel + [coordinator.node];
      place := place[coordinator.node := Queued];
      coordinator := Scanning(coordinator.todo);
    }

    /** The coordinator leaves one of its inner loops. */
    method EndLoop()
      requires coordinator == Seeding({}) || coordinator == Scanning([])
      modifies this
      ensures Now() == old(Now()).(coordinator := Waiting)
    {
      coordinator := Waiting;
    }
  }

  /** Everything the loop of `WalkDAG` needs to know of a step. */
  lemma OneStep(p: Plan, errs: Errors, dependents: map<string, seq<string>>, s: State, t: State)
    requires Inv(p, errs, Fates(p, errs), s) && DependentsOf(p, dependents) && Next(p, errs, dependents, s, t)
    ensures Inv(p, errs, Fates(p, errs), t) && Closer(p, s, t)
  {
    FatesSolve(p, errs);
    NextKeeps(p, errs, Fates(p, errs), dependents, s, t);
    InvPoised(p, s);
    NextIsCloser(p, errs, dependents, s, t);
  }

  /** The next step finds what it needs: tasks have degrees, and the channel has room. */
  lemma CanGoOn(p: Plan, errs: Errors, s: State)
    requires Inv(p, errs, Fates(p, errs), s)
    ensures s.coordinator.Seeding? ==> forall n :: n in s.coordinator.rest ==> CanSeed(s, n)
    ensures s.coordinator.Scanning? && s.coordinator.todo != [] ==> CanScan(p, s)
    ensures s.coordinator.Sending? || (exists n :: At(s, n, AboutToSend)) ==> |s.channel| < |p.deps|
    ensures s.coordinator.Waiting? && s.running > 0 ==>
              exists n :: At(s, n, InBody) || At(s, n, AboutToSend) || At(s, n, Queued)
  {
    if s.coordinator.Sending? {
      PlacesPoise(p, s);
      RoomForSend(p, s, s.coordinator.node);
    }
    if n :| At(s, n, AboutToSend) {
      RoomForSend(p, s, n);
    }
    if s.coordinator.Waiting? && s.running > 0 {
      SomethingCanMove(p, s);
    }
    if s.coordinator.Scanning? && s.coordinator.todo != [] {
      assert s.coordinator.todo[0] in Todo(s);
    }
  }

  lemma RoomForSend(p: Plan, s: State, n: string)
    requires Places(p, s) && (At(s, n, AboutToSend) || At(s, n, Held))
    ensures |s.channel| < |p.deps|
  {
    assert !At(s, n, Queued);
    RoomInChannel(p, s, n);
  }

  function TasksAt(place: map<string, Place>, w: Place): set<string> {
    set n | n in place && place[n] == w
  }

  lemma SomeAlternative(p: Plan, errs: Errors, s: State)
    requires Inv(p, errs, Fates(p, errs), s) && s.coordinator.Waiting? && s.running > 0
    ensures TasksAt(s.place, InBody) != {} || s.channel != []
         || (TasksAt(s.place, AboutToSend) != {} && |s.channel| < |p.deps|)
  {
    CanGoOn(p, errs, s);
    var n :| At(s, n, InBody) || At(s, n, AboutToSend) || At(s, n, Queued);
    if At(s, n, InBody) {
      assert n in TasksAt(s.place, InBody);
    } else if At(s, n, AboutToSend) {
      assert n in TasksAt(s.place, AboutToSend);
    } else {
      assert n in s.channel;
    }
  }

  /** The outcome a caller of the walk sees, against the plain meaning of the graph. */
  ghost predicate Reports(p: Plan, errs: Errors, result: WalkResult, ran: set<string>, skipped: map<string, string>) {
    && ran == RanTasks(p, errs)
    && (forall n :: n in skipped <==> n in p.deps && Meaning(p, errs, n).Skipped?)
    && (forall n :: n in skipped ==> Meaning(p, errs, n) == Skipped(skipped[n]))
    && (result == Success <==> forall n :: n in p.deps ==> Meaning(p, errs, n) == Ran(false))
    && (result.NeverExecuted? <==> UnreachedTasks(p, errs) != {})
    && (result.NeverExecuted? ==> result.tasks == UnreachedTasks(p, errs))
    && (result.TaskError? ==> exists n :: n in ran && n in errs && errs[n] == result.text)
  }

  /** The callbacks seen: each task launched, returned or reported skipped exactly as `ran` and `skipped` say,
    * never twice, and each only after everything the task depends on had finished. */
  ghost predicate Callbacks(p: Plan, errs: Errors, log: seq<Event>, ran: set<string>, skipped: map<string, string>) {
    && WellOrdered(p, log)
    && (forall n :: Launched(n) in log <==> n in ran)
    && (forall n, b :: Returned(n, b) in log <==> n in ran && b == (n in errs))
    && (forall n, d :: DepFailed(n, d) in log <==> n in skipped && skipped[n] == d)
  }

  lemma EndReports(p: Plan, errs: Errors, s: State, result: WalkResult)
    requires Inv(p, errs, Fates(p, errs), s) && s.coordinator.Waiting? && s.running == 0
    requires var leftover := set n | n in s.inDegree && s.inDegree[n] > 0;
             result == if leftover != {} then NeverExecuted(leftover)
                       else if s.firstErr == None then Success else TaskError(s.firstErr.value)
    ensures Reports(p, errs, result, s.place.Keys - s.skipped.Keys, s.skipped)
  {
    EndDecides(p, errs, s);
    EndVerdicts(p, errs, s);
    EndFailures(p, errs, s);
    EverythingSucceedsIff(p, errs);
  }

  /** A task error is the one that the first body to return an error, as the callbacks came, returned. */
  ghost predicate FirstOf(errs: Errors, log: seq<Event>, result: WalkResult) {
    result.TaskError? ==>
      exists i :: (0 <= i < |log| && log[i].Returned? && log[i].bodyFailed
                   && log[i].node in errs && errs[log[i].node] == result.text
                   && forall j :: 0 <= j < i ==> !(log[j].Returned? && log[j].bodyFailed))
  }

  lemma EndFirst(errs: Errors, s: State, result: WalkResult)
    requires KeepsFirst(errs, s) && (result.TaskError? ==> s.firstErr == Some(result.text))
    ensures FirstOf(errs, s.log, result)
  {
    FirstFailureIs(s.log);
    if result.TaskError? {
      var i :| 0 <= i < |s.log| && s.log[i] == Returned(FirstFailure(s.log).value, true)
               && forall j, n :: 0 <= j < i ==> s.log[j] != Returned(n, true);
      forall j | 0 <= j < i ensures !(s.log[j].Returned? && s.log[j].bodyFailed) {
        assert s.log[j] != Returned(s.log[j].node, true);
      }
    }
  }

  lemma EndFailures(p: Plan, errs: Errors, s: State)
    requires Places(p, s) && Failures(errs, s) && s.running == 0
    requires s.place.Keys - s.skipped.Keys == RanTasks(p, errs)
    ensures s.firstErr == None <==> FailedBodies(p, errs) == {}
    ensures s.firstErr != None ==> exists n :: n in RanTasks(p, errs) && n in errs && errs[n] == s.firstErr.value
  {
    AllReceived(p, s);
    assert BodyFailures(errs, s) == FailedBodies(p, errs) by {
      forall n | n in s.place ensures s.place[n] == Received { assert n in Done(s); }
    }
  }

  lemma EndCallbacks(p: Plan, errs: Errors, s: State)
    requires Places(p, s) && Recorded(errs, s) && WellOrdered(p, s.log) && s.running == 0
    ensures Callbacks(p, errs, s.log, s.place.Keys - s.skipped.Keys, s.skipped)
  {
    AllReceived(p, s);
    forall n, b ensures Returned(n, b) in s.log <==> n in s.place && n !in s.skipped && b == (n in errs) {
      assert n in s.place ==> n in Done(s);
      assert Returned(n, b) in s.log <==> Happened(errs, s, Returned(n, b));
    }
  }

  /** One step of the coordinator or of some goroutine, whichever happens to move. That some alternative
    * is always enabled is the absence of deadlock. */
  method Turn(w: Shared)
    requires Inv(w.p, w.errs, Fates(w.p, w.errs), w.Now())
    requires !(w.coordinator.Waiting? && w.running == 0)
    modifies w
    ensures Next(w.p, w.errs, w.dependents, old(w.Now()), w.Now())
  {
    CanGoOn(w.p, w.errs, w.Now());
    if w.coordinator.Waiting? { SomeAlternative(w.p, w.errs, w.Now()); }
    if {
      case w.coordinator.Seeding? && w.coordinator.rest != {} =>
        var node :| node in w.coordinator.rest;
        w.SeedOne(node);
      case w.coordinator == Seeding({}) || w.coordinator == Scanning([]) =>
        w.EndLoop();
      case w.coordinator.Waiting? && w.channel != [] =>
        w.ReceiveDone();
      case w.coordinator.Scanning? && w.coordinator.todo != [] =>
        w.ScanOne();
      case w.coordinator.Sending? && |w.channel| < |w.p.deps| =>
        w.SendSkip();
      case TasksAt(w.place, InBody) != {} =>
        var node :| node in TasksAt(w.place, InBody);
        w.BodyReturns(node);
      case TasksAt(w.place, AboutToSend) != {} && |w.channel| < |w.p.deps| =>
        var node :| node in TasksAt(w.place, AboutToSend);
        w.SendDone(node);
    }
  }

  /** The walk. Each turn of the loop lets any goroutine that can move take its next step, so the
    * postconditions hold of every interleaving; the decreases clause is its end. */
  method WalkDAG(p: Plan, errs: Errors)
      returns (result: WalkResult, ran: set<string>, skipped: map<string, string>, log: seq<Event>)
    ensures Reports(p, errs, result, ran, skipped)
    ensures Callbacks(p, errs, log, ran, skipped)
    ensures FirstOf(errs, log, result)
  {
    var inDegree, dependents := BuildEdges(p);
    var w := new Shared(p, errs, inDegree, dependents);
    InitialInv(p, errs, Fates(p, errs), w.Now());
    while !(w.coordinator.Waiting? && w.running == 0)
      invariant w.p == p && w.errs == errs && w.dependents == dependents
      invariant Inv(p, errs, Fates(p, errs), w.Now())
      decreases MovesAhead(p, w.place), LoopLeft(w.coordinator)
    {
      ghost var s := w.Now();
      Turn(w);
      OneStep(p, errs, dependents, s, w.Now());
    }
    var leftover := set n | n in w.inDegree && w.inDegree[n] > 0;
    if leftover != {} {
      result := NeverExecuted(leftover);
    } else if w.firstErr == None {
      result := Success;
    } else {
      result := TaskError(w.firstErr.value);
    }
    ran, skipped, log := w.place.Keys - w.skipped.Keys, w.skipped, w.log;
    EndReports(p, errs, w.Now(), result);
    EndCallbacks(p, errs, w.Now());
    EndFirst(errs, w.Now(), result);
  }
}
