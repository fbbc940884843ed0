/** The concurrent walker: one coordinator, one goroutine per launched task, a bounded channel. */
module Walk {
  // Every point at which another goroutine may run in between is a step of its own, and `WalkDAG`
  // picks among the enabled steps freely. What it ensures therefore holds of every interleaving.

  import opened Dag
  import opened Wrappers

  /** What an observer of the callbacks sees, in order. */
  datatype Event =
    | Launched(node: string)
    | Returned(node: string, bodyFailed: bool)
    | DepFailed(node: string, failedDep: string)

  /** What the walk returns: no error, the first task error, or the tasks never executed. */
  datatype WalkResult = Success | TaskError(text: string) | NeverExecuted(tasks: set<string>)

  /** Where the coordinator is: launching the entry points, blocked on the channel, going through the
    * dependents of the task it received, or about to send the completion of a skipped dependent. */
  datatype Coordinator =
    | Seeding(rest: set<string>)
    | Waiting
    | Scanning(todo: seq<string>)
    | Sending(node: string, todo: seq<string>)

  /** Where a task the walk has decided about is: its goroutine inside the body, past the body and about
    * to send, its completion in the channel, held by the coordinator (skipped tasks), or received. */
  datatype Place = InBody | AboutToSend | Queued | Held | Received

  /** The walker's variables; the place of every task decided about; and, as history, the skipped tasks
    * with the dependency reported for each, and the callbacks in order. */
  datatype State = State(
    inDegree: map<string, int>,
    failed: set<string>,
    firstErr: Option<string>,
    channel: seq<string>,
    running: int,
    coordinator: Coordinator,
    place: map<string, Place>,
    skipped: map<string, string>,
    log: seq<Event>)

  // ----- The steps -----

  function Launch(s: State, n: string): State {
    s.(running := s.running + 1, place := s.place[n := InBody], log := s.log + [Launched(n)])
  }

  predicate CanSeed(s: State, n: string) {
    s.coordinator.Seeding? && n in s.coordinator.rest && n in s.inDegree
  }

  function Seed(s: State, n: string): State
    requires CanSeed(s, n)
  {
    var t := s.(coordinator := Seeding(s.coordinator.rest - {n}));
    if s.inDegree[n] == 0 then Launch(t, n) else t
  }

  predicate At(s: State, n: string, place: Place) {
    n in s.place && s.place[n] == place
  }

  /** The end of a body: the critical section that records its error. */
  function Return(errs: Errors, s: State, n: string): State {
    s.(place := s.place[n := AboutToSend],
       failed := if n in errs then s.failed + {n} else s.failed,
       firstErr := if n in errs && s.firstErr == None then Some(errs[n]) else s.firstErr,
       log := s.log + [Returned(n, n in errs)])
  }

  function Send(s: State, n: string): State {
    s.(place := s.place[n := Queued], channel := s.channel + [n])
  }

  predicate CanReceive(s: State) {
    s.coordinator.Waiting? && s.channel != []
  }

  function Receive(dependents: map<string, seq<string>>, s: State): State
    requires CanReceive(s)
  {
    var completed := s.channel[0];
    s.(channel := s.channel[1..], running := s.running - 1, place := s.place[completed := Received],
       coordinator := Scanning(Lookup(dependents, completed)))
  }

  predicate CanScan(p: Plan, s: State) {
    && s.coordinator.Scanning?
    && s.coordinator.todo != []
    && s.coordinator.todo[0] in s.inDegree
    && s.coordinator.todo[0] in p.deps
  }

  /** The dependency that keeps `n` from being launched, or "". */
  function Blocker(p: Plan, s: State, n: string): string
    requires n in p.deps
  {
    if n in p.carryOn then "" else FirstFailed(p.deps[n], s.failed)
  }

  /** One turn of the loop over dependents. */
  function Scan(p: Plan, s: State): State
    requires CanScan(p, s)
  {
    var n, rest := s.coordinator.todo[0], s.coordinator.todo[1..];
    var t := s.(inDegree := s.inDegree[n := s.inDegree[n] - 1], coordinator := Scanning(rest));
    if t.inDegree[n] != 0 then t
    else if Blocker(p, s, n) == "" then Launch(t, n)
    else Skip(t, n, Blocker(p, s, n), rest)
  }

  function Skip(s: State, n: string, failedDep: string, rest: seq<string>): State {
    s.(failed := s.failed + {n}, skipped := s.skipped[n := failedDep], running := s.running + 1,
       place := s.place[n := Held], coordinator := Sending(n, rest), log := s.log + [DepFailed(n, failedDep)])
  }

  function SendSkipped(s: State): State
    requires s.coordinator.Sending?
  {
    Send(s, s.coordinator.node).(coordinator := Scanning(s.coordinator.todo))
  }

  // ----- What every step keeps -----

  function Todo(s: State): seq<string> {
    if s.coordinator.Scanning? || s.coordinator.Sending? then s.coordinator.todo else []
  }

  function Rest(s: State): set<string> {
    if s.coordinator.Seeding? then s.coordinator.rest else {}
  }

  /** Tasks decided about whose completion is still to be received. */
  function Live(s: State): set<string> {
    set n | n in s.place && s.place[n] != Received
  }

  function Done(s: State): set<string> {
    set n | n in s.place && s.place[n] == Received
  }

  /** The places agree with the channel and the coordinator, and `running` counts what is not yet received. */
  ghost predicate Places(p: Plan, s: State) {
    && s.place.Keys <= p.deps.Keys
    && s.skipped.Keys <= s.place.Keys
    && (forall n :: n in s.channel <==> At(s, n, Queued))
    && NoRepeats(s.channel)
    && (forall n :: At(s, n, Held) <==> s.coordinator.Sending? && s.coordinator.node == n)
    && (forall n :: n in s.skipped ==> !At(s, n, InBody) && !At(s, n, AboutToSend))
    && s.running == |Live(s)|
  }

  /** How many entries of `ds` are not in `done`. */
  function Missing(ds: seq<string>, done: set<string>): nat {
    if ds == [] then 0 else (if ds[0] in done then 0 else 1) + Missing(ds[1..], done)
  }

  /** A task's in-degree is the number of its depends entries not received, plus the decrements still to do. */
  ghost predicate Counts(p: Plan, s: State) {
    && s.inDegree.Keys == p.deps.Keys
    && (forall n :: n in Todo(s) ==> n in p.deps)
    && (forall n :: n in p.deps ==> s.inDegree[n] == Missing(p.deps[n], Done(s)) + multiset(Todo(s))[n])
    && Rest(s) <= p.deps.Keys
    && (s.coordinator.Seeding? ==> Done(s) == {})
  }

  /** The in-degree is zero exactly for the tasks decided about, once the entry points have been gone through. */
  ghost predicate Zeroes(p: Plan, s: State) {
    && s.inDegree.Keys == p.deps.Keys
    && forall n :: n in p.deps ==> (n in s.place <==> s.inDegree[n] == 0 && n !in Rest(s))
  }

  ghost predicate Degrees(p: Plan, s: State) {
    Counts(p, s) && Zeroes(p, s)
  }

  /** Once everything `n` depends on has a fate, so does `n`: the equation of `Dag.MeaningEquation`. */
  ghost predicate SolvesAt(p: Plan, errs: Errors, fate: map<string, Outcome>, n: string)
    requires n in p.deps && n in fate
  {
    (forall d :: d in p.deps[n] ==> d in fate && !fate[d].Unreached?) ==>
      fate[n] == Settle(p, errs, n, set d | d in fate && fate[d].Failed())
  }

  ghost predicate Solves(p: Plan, errs: Errors, fate: map<string, Outcome>) {
    && fate.Keys == p.deps.Keys
    && forall n {:trigger SolvesAt(p, errs, fate, n)} :: n in p.deps ==> SolvesAt(p, errs, fate, n)
  }

  /** Every decision taken so far is the one in `fate`. */
  ghost predicate Verdicts(errs: Errors, fate: map<string, Outcome>, s: State) {
    && s.place.Keys <= fate.Keys
    && forall n :: n in s.place ==> fate[n] == if n in s.skipped then Skipped(s.skipped[n]) else Ran(n in errs)
  }

  /** Bodies that have returned an error. */
  ghost function BodyFailures(errs: Errors, s: State): set<string> {
    set n | n in s.place && n !in s.skipped && s.place[n] != InBody && n in errs
  }

  ghost predicate Failures(errs: Errors, s: State) {
    && s.failed == s.skipped.Keys + BodyFailures(errs, s)
    && (s.firstErr == None <==> BodyFailures(errs, s) == {})
    && (s.firstErr != None ==> exists n :: n in BodyFailures(errs, s) && errs[n] == s.firstErr.value)
  }

  ghost predicate Finished(past: seq<Event>, n: string) {
    exists e :: e in past && e.node == n && !e.Launched?
  }

  /** An event may happen after `past`: it is new, a task is decided about only after everything it
    * depends on has finished, and a body returns only after it was launched. */
  ghost predicate Justified(p: Plan, past: seq<Event>, e: Event) {
    && e !in past
    && if e.Returned? then Launched(e.node) in past
       else e.node in p.deps && forall d :: d in p.deps[e.node] ==> Finished(past, d)
  }

  ghost predicate WellOrdered(p: Plan, log: seq<Event>) {
    log != [] ==>
      var last := |log| - 1;
      Justified(p, log[..last], log[last]) && WellOrdered(p, log[..last])
  }

  /** What the state says has happened. */
  ghost predicate Happened(errs: Errors, s: State, e: Event) {
    && e.node in s.place
    && match e
       case Launched(n) => n !in s.skipped
       case Returned(n, b) => n !in s.skipped && s.place[n] != InBody && b == (n in errs)
       case DepFailed(n, d) => n in s.skipped && s.skipped[n] == d
  }

  ghost predicate Recorded(errs: Errors, s: State) {
    forall e :: e in s.log <==> Happened(errs, s, e)
  }

  /** The task whose body is the first in `log` to return an error. */
  function FirstFailure(log: seq<Event>): Option<string> {
    if log == [] then None
    else
      var before, last := FirstFailure(log[..|log| - 1]), log[|log| - 1];
      if before == None && last.Returned? && last.bodyFailed then Some(last.node) else before
  }

  /** The error kept is the one of the first body to return one. */
  ghost predicate KeepsFirst(errs: Errors, s: State) {
    var first := FirstFailure(s.log);
    s.firstErr == if first != None && first.value in errs then Some(errs[first.value]) else None
  }

  ghost predicate Record(p: Plan, errs: Errors, s: State) {
    Failures(errs, s) && Recorded(errs, s) && WellOrdered(p, s.log) && KeepsFirst(errs, s)
  }

  /** dependents[d] lists n once for every time n lists d. */
  ghost predicate DependentsOf(p: Plan, dependents: map<string, seq<string>>) {
    && (forall d, n :: n in p.deps ==> multiset(Lookup(dependents, d))[n] == multiset(p.deps[n])[d])
    && (forall d, n :: n in Lookup(dependents, d) ==> n in p.deps)
  }

  ghost predicate Inv(p: Plan, errs: Errors, fate: map<string, Outcome>, s: State) {
    && Places(p, s)
    && Degrees(p, s)
    && Verdicts(errs, fate, s)
    && Record(p, errs, s)
  }

  // ----- Small facts -----

  lemma {:induction false} ChannelSize(channel: seq<string>)
    requires NoRepeats(channel)
    ensures |channel| == |set n | n in channel|
  {
    if channel != [] {
      ChannelSize(channel[1..]);
      assert (set n | n in channel) == {channel[0]} + set n | n in channel[1..];
    }
  }

  lemma {:induction false} MissingNone(ds: seq<string>, done: set<string>)
    ensures Missing(ds, done) == 0 <==> forall d :: d in ds ==> d in done
  {
    if ds != [] {
      assert ds == [ds[0]] + ds[1..];
      MissingNone(ds[1..], done);
    }
  }

  lemma {:induction false} MissingFewer(ds: seq<string>, done: set<string>, c: string)
    requires c !in done
    ensures Missing(ds, done) == Missing(ds, done + {c}) + multiset(ds)[c]
  {
    if ds != [] {
      assert ds == [ds[0]] + ds[1..];
      MissingFewer(ds[1..], done, c);
    }
  }

  lemma FirstFailureOfMore(log: seq<Event>, e: Event)
    ensures FirstFailure(log + [e]) ==
              if FirstFailure(log) == None && e.Returned? && e.bodyFailed then Some(e.node) else FirstFailure(log)
  {
    assert (log + [e])[..|log|] == log;
  }

  /** What `FirstFailure` finds: the first body to return an error, if any does. */
  lemma {:induction false} FirstFailureIs(log: seq<Event>)
    ensures FirstFailure(log) == None ==> forall n :: Returned(n, true) !in log
    ensures FirstFailure(log) != None ==>
              exists i :: (0 <= i < |log| && log[i] == Returned(FirstFailure(log).value, true)
                           && forall j, n :: 0 <= j < i ==> log[j] != Returned(n, true))
    decreases |log|
  {
    if log != [] {
      var last := |log| - 1;
      FirstFailureIs(log[..last]);
      assert log == log[..last] + [log[last]];
      if FirstFailure(log[..last]) != None {
        var i :| 0 <= i < last && log[..last][i] == Returned(FirstFailure(log[..last]).value, true)
                 && forall j, n :: 0 <= j < i ==> log[..last][j] != Returned(n, true);
        assert log[i] == log[..last][i] && forall j :: 0 <= j < i ==> log[j] == log[..last][j];
      } else {
        assert forall j :: 0 <= j < last ==> log[j] in log[..last];
      }
    }
  }

  lemma WellOrderedExtends(p: Plan, log: seq<Event>, e: Event)
    requires WellOrdered(p, log) && Justified(p, log, e)
    ensures WellOrdered(p, log + [e])
  {
    assert (log + [e])[..|log|] == log;
  }

  /** When nothing is missing, the failed marks on a task's depends are final, so the walk's decision
    * is the one in the plain meaning. */
  lemma DecisionIsMeaning(p: Plan, errs: Errors, fate: map<string, Outcome>, s: State, n: string)
    requires Solves(p, errs, fate) && Verdicts(errs, fate, s) && Failures(errs, s) && Recorded(errs, s)
    requires n in p.deps && forall d :: d in p.deps[n] ==> d in Done(s)
    ensures fate[n] == if Blocker(p, s, n) == "" then Ran(n in errs) else Skipped(Blocker(p, s, n))
    ensures forall d :: d in p.deps[n] ==> Finished(s.log, d)
  {
    forall d | d in p.deps[n]
      ensures d in s.failed <==> d in fate && fate[d].Failed()
      ensures Finished(s.log, d)
    {
      var e := if d in s.skipped then DepFailed(d, s.skipped[d]) else Returned(d, d in errs);
      assert Happened(errs, s, e) && e.node == d;
    }
    assert SolvesAt(p, errs, fate, n);
    FirstFailedAgrees(p.deps[n], s.failed, set d | d in fate && fate[d].Failed());
  }

  /** There is always room in the channel for a task not yet in it, so no send ever blocks. */
  lemma RoomInChannel(p: Plan, s: State, n: string)
    requires Places(p, s) && n in p.deps && n !in s.channel
    ensures |s.channel| < |p.deps|
  {
    ChannelSize(s.channel);
    var queued := set n | n in s.channel;
    assert queued <= p.deps.Keys - {n} by {
      forall m | m in queued ensures m in p.deps { assert At(s, m, Queued); }
    }
    SmallerSubset(queued, p.deps.Keys - {n});
    DepsCount(p);
  }

  /** No deadlock: while something is running, some goroutine can move. */
  lemma SomethingCanMove(p: Plan, s: State)
    requires Places(p, s) && s.coordinator.Waiting? && s.running > 0
    ensures exists n :: At(s, n, InBody) || (At(s, n, AboutToSend) && |s.channel| < |p.deps|) || At(s, n, Queued)
  {
    var n :| n in Live(s);
    assert !At(s, n, Held);
    if At(s, n, AboutToSend) {
      RoomInChannel(p, s, n);
    }
  }

  // ----- Each step keeps the invariant -----

  /** A change of place that no callback sees. */
  lemma QuietMove(p: Plan, errs: Errors, s: State, t: State)
    requires Record(p, errs, s)
    requires t.log == s.log && t.failed == s.failed && t.firstErr == s.firstErr && t.skipped == s.skipped
    requires t.place.Keys == s.place.Keys
    requires forall n :: n in s.place ==> (t.place[n] == InBody <==> s.place[n] == InBody)
    ensures Record(p, errs, t)
  {
    assert BodyFailures(errs, t) == BodyFailures(errs, s);
    assert forall e: Event :: Happened(errs, t, e) <==> Happened(errs, s, e);
  }

  /** A move that decides about no task and receives none. */
  lemma SameDegrees(p: Plan, s: State, t: State)
    requires Degrees(p, s)
    requires t.inDegree == s.inDegree && t.place.Keys == s.place.Keys && Done(t) == Done(s)
    requires Todo(t) == Todo(s) && Rest(t) == Rest(s) && (t.coordinator.Seeding? ==> s.coordinator.Seeding?)
    ensures Degrees(p, t)
  {
  }

  lemma SameVerdicts(errs: Errors, fate: map<string, Outcome>, s: State, t: State)
    requires Verdicts(errs, fate, s) && t.place.Keys == s.place.Keys && t.skipped == s.skipped
    ensures Verdicts(errs, fate, t)
  {
  }

  /** The coordinator moves on by itself. */
  lemma CoordinatorMoves(p: Plan, s: State, t: State)
    requires Places(p, s) && !s.coordinator.Sending? && !t.coordinator.Sending?
    requires t.place == s.place && t.channel == s.channel && t.skipped == s.skipped && t.running == s.running
    ensures Places(p, t) && Done(t) == Done(s)
  {
    assert Live(t) == Live(s);
    assert forall m, w :: At(t, m, w) <==> At(s, m, w);
  }

  /** One task, not skipped or past its body, changes place; the channel follows. */
  lemma OneMoves(p: Plan, s: State, t: State, n: string)
    requires Places(p, s) && n in s.place && s.place[n] != Received
    requires n in t.place && t.place == s.place[n := t.place[n]] && t.skipped == s.skipped && t.running == s.running
    requires
      || (At(s, n, InBody) && At(t, n, AboutToSend) && t.channel == s.channel && t.coordinator == s.coordinator)
      || (At(s, n, AboutToSend) && At(t, n, Queued) && t.channel == s.channel + [n] && t.coordinator == s.coordinator)
      || (At(s, n, Held) && At(t, n, Queued) && t.channel == s.channel + [n] && t.coordinator.Scanning?)
    ensures Places(p, t) && Done(t) == Done(s)
  {
    assert Live(t) == Live(s);
    assert forall m, w :: m != n ==> (At(t, m, w) <==> At(s, m, w));
    assert !At(s, n, Queued);
    assert At(s, n, Held) <==> s.coordinator.Sending? && s.coordinator.node == n;
  }

  lemma ReturnFails(errs: Errors, s: State, n: string)
    requires Failures(errs, s) && At(s, n, InBody) && n !in s.skipped
    ensures Failures(errs, Return(errs, s, n))
  {
    assert BodyFailures(errs, Return(errs, s, n)) == BodyFailures(errs, s) + if n in errs then {n} else {};
  }

  lemma ReturnRecorded(errs: Errors, s: State, n: string)
    requires Recorded(errs, s) && At(s, n, InBody) && n !in s.skipped
    ensures Recorded(errs, Return(errs, s, n))
    ensures Launched(n) in s.log && Returned(n, n in errs) !in s.log
  {
    assert Happened(errs, s, Launched(n)) && !Happened(errs, s, Returned(n, n in errs));
  }

  lemma ReturnKeepsFirst(errs: Errors, s: State, n: string)
    requires KeepsFirst(errs, s) && Recorded(errs, s)
    ensures KeepsFirst(errs, Return(errs, s, n))
  {
    FirstFailureOfMore(s.log, Returned(n, n in errs));
    if FirstFailure(s.log) != None {
      FirstFailureIs(s.log);
      assert Returned(FirstFailure(s.log).value, true) in s.log;
    }
  }

  lemma ReturnRecords(p: Plan, errs: Errors, s: State, n: string)
    requires Record(p, errs, s) && At(s, n, InBody) && n !in s.skipped
    ensures Record(p, errs, Return(errs, s, n))
  {
    ReturnFails(errs, s, n);
    ReturnRecorded(errs, s, n);
    ReturnKeepsFirst(errs, s, n);
    WellOrderedExtends(p, s.log, Returned(n, n in errs));
  }

  lemma ReturnKeeps(p: Plan, errs: Errors, fate: map<string, Outcome>, s: State, n: string)
    requires Inv(p, errs, fate, s) && At(s, n, InBody)
    ensures Inv(p, errs, fate, Return(errs, s, n))
  {
    var t := Return(errs, s, n);
    OneMoves(p, s, t, n);
    ReturnRecords(p, errs, s, n);
    SameDegrees(p, s, t);
    SameVerdicts(errs, fate, s, t);
  }

  /** A completion goes into the channel: nothing but its task's place changes for the rest of the invariant. */
  lemma SentQuietly(p: Plan, errs: Errors, fate: map<string, Outcome>, s: State, t: State, n: string)
    requires Record(p, errs, s) && Verdicts(errs, fate, s)
    requires n in s.place && s.place[n] != InBody && t.place == s.place[n := Queued]
    requires t.log == s.log && t.failed == s.failed && t.firstErr == s.firstErr && t.skipped == s.skipped
    ensures Record(p, errs, t) && Verdicts(errs, fate, t)
  {
    QuietMove(p, errs, s, t);
    SameVerdicts(errs, fate, s, t);
  }

  lemma SendPlaces(p: Plan, s: State, n: string)
    requires Places(p, s) && At(s, n, AboutToSend)
    ensures Places(p, Send(s, n)) && Done(Send(s, n)) == Done(s)
  {
    OneMoves(p, s, Send(s, n), n);
  }

  lemma SendSkippedPlaces(p: Plan, s: State)
    requires Places(p, s) && s.coordinator.Sending?
    ensures Places(p, SendSkipped(s)) && Done(SendSkipped(s)) == Done(s)
    ensures At(s, s.coordinator.node, Held)
  {
    assert At(s, s.coordinator.node, Held);
    OneMoves(p, s, SendSkipped(s), s.coordinator.node);
  }

  lemma SendKeeps(p: Plan, errs: Errors, fate: map<string, Outcome>, s: State, n: string)
    requires Inv(p, errs, fate, s) && At(s, n, AboutToSend)
    ensures Inv(p, errs, fate, Send(s, n))
  {
    SendPlaces(p, s, n);
    SentQuietly(p, errs, fate, s, Send(s, n), n);
    SameDegrees(p, s, Send(s, n));
  }

  lemma SendSkippedKeeps(p: Plan, errs: Errors, fate: map<string, Outcome>, s: State)
    requires Inv(p, errs, fate, s) && s.coordinator.Sending?
    ensures Inv(p, errs, fate, SendSkipped(s))
  {
    SendSkippedPlaces(p, s);
    SentQuietly(p, errs, fate, s, SendSkipped(s), s.coordinator.node);
    SameDegrees(p, s, SendSkipped(s));
  }

  lemma ReceiveKeepsPlaces(p: Plan, dependents: map<string, seq<string>>, s: State)
    requires Places(p, s) && CanReceive(s)
    ensures Places(p, Receive(dependents, s)) && Done(Receive(dependents, s)) == Done(s) + {s.channel[0]}
    ensures At(s, s.channel[0], Queued)
  {
    var t, c := Receive(dependents, s), s.channel[0];
    assert s.channel == [c] + t.channel;
    assert At(s, c, Queued);
    assert Live(s) == Live(t) + {c} && c !in Live(t);
    assert forall m, w :: m != c ==> (At(t, m, w) <==> At(s, m, w));
  }

  lemma ReceiveKeepsDegrees(p: Plan, dependents: map<string, seq<string>>, s: State)
    requires Degrees(p, s) && CanReceive(s) && DependentsOf(p, dependents) && At(s, s.channel[0], Queued)
    requires Done(Receive(dependents, s)) == Done(s) + {s.channel[0]}
    ensures Degrees(p, Receive(dependents, s))
  {
    var t, c := Receive(dependents, s), s.channel[0];
    forall n | n in p.deps
      ensures t.inDegree[n] == Missing(p.deps[n], Done(t)) + multiset(Todo(t))[n]
    {
      MissingFewer(p.deps[n], Done(s), c);
    }
  }

  lemma ReceiveRecords(p: Plan, errs: Errors, fate: map<string, Outcome>, dependents: map<string, seq<string>>, s: State)
    requires Places(p, s) && Record(p, errs, s) && Verdicts(errs, fate, s) && CanReceive(s)
    requires At(s, s.channel[0], Queued)
    ensures Record(p, errs, Receive(dependents, s)) && Verdicts(errs, fate, Receive(dependents, s))
  {
    var t := Receive(dependents, s);
    QuietMove(p, errs, s, t);
    SameVerdicts(errs, fate, s, t);
  }

  lemma ReceiveKeeps(p: Plan, errs: Errors, fate: map<string, Outcome>, dependents: map<string, seq<string>>, s: State)
    requires Inv(p, errs, fate, s) && CanReceive(s) && DependentsOf(p, dependents)
    ensures Inv(p, errs, fate, Receive(dependents, s))
  {
    ReceiveKeepsPlaces(p, dependents, s);
    ReceiveKeepsDegrees(p, dependents, s);
    ReceiveRecords(p, errs, fate, dependents, s);
  }

  /** One task more is decided about. */
  lemma Placed(s: State, t: State, n: string, w: Place)
    requires n !in s.place && w != Received && t.place == s.place[n := w]
    ensures |Live(t)| == |Live(s)| + 1 && Done(t) == Done(s)
    ensures forall m, v :: m != n ==> (At(t, m, v) <==> At(s, m, v))
    ensures forall v :: !At(s, n, v)
  {
    assert Live(t) == Live(s) + {n};
  }

  lemma LaunchKeepsPlaces(p: Plan, s: State, n: string)
    requires Places(p, s) && n in p.deps && n !in s.place
    ensures Places(p, Launch(s, n)) && Done(Launch(s, n)) == Done(s)
  {
    Placed(s, Launch(s, n), n, InBody);
    assert !At(s, n, Held) && !At(s, n, Queued) && n !in s.skipped;
  }

  lemma LaunchRecords(p: Plan, errs: Errors, s: State, n: string)
    requires Record(p, errs, s) && n in p.deps && n !in s.place && n !in s.skipped
    requires forall d :: d in p.deps[n] ==> Finished(s.log, d)
    ensures Record(p, errs, Launch(s, n))
  {
    var t := Launch(s, n);
    assert BodyFailures(errs, t) == BodyFailures(errs, s);
    assert !Happened(errs, s, Launched(n));
    WellOrderedExtends(p, s.log, Launched(n));
    FirstFailureOfMore(s.log, Launched(n));
  }

  lemma SkipKeepsPlaces(p: Plan, s: State, n: string, failedDep: string, rest: seq<string>)
    requires Places(p, s) && n in p.deps && n !in s.place && s.coordinator.Scanning?
    ensures Places(p, Skip(s, n, failedDep, rest)) && Done(Skip(s, n, failedDep, rest)) == Done(s)
  {
    Placed(s, Skip(s, n, failedDep, rest), n, Held);
  }

  lemma SkipFails(errs: Errors, s: State, n: string, failedDep: string, rest: seq<string>)
    requires Failures(errs, s) && n !in s.place && n !in s.skipped
    ensures Failures(errs, Skip(s, n, failedDep, rest))
  {
    assert BodyFailures(errs, Skip(s, n, failedDep, rest)) == BodyFailures(errs, s);
  }

  lemma SkipRecorded(errs: Errors, s: State, n: string, failedDep: string, rest: seq<string>)
    requires Recorded(errs, s) && n !in s.place && n !in s.skipped
    ensures Recorded(errs, Skip(s, n, failedDep, rest)) && DepFailed(n, failedDep) !in s.log
  {
    assert !Happened(errs, s, DepFailed(n, failedDep));
  }

  lemma SkipRecords(p: Plan, errs: Errors, s: State, n: string, failedDep: string, rest: seq<string>)
    requires Record(p, errs, s) && n in p.deps && n !in s.place && n !in s.skipped
    requires forall d :: d in p.deps[n] ==> Finished(s.log, d)
    ensures Record(p, errs, Skip(s, n, failedDep, rest))
  {
    SkipFails(errs, s, n, failedDep, rest);
    SkipRecorded(errs, s, n, failedDep, rest);
    FirstFailureOfMore(s.log, DepFailed(n, failedDep));
    WellOrderedExtends(p, s.log, DepFailed(n, failedDep));
  }

  /** What a degree of zero means for a task not yet decided about. */
  lemma ZeroDegree(p: Plan, errs: Errors, fate: map<string, Outcome>, s: State, n: string)
    requires Inv(p, errs, fate, s) && Solves(p, errs, fate) && n in p.deps
    requires Missing(p.deps[n], Done(s)) == 0
    ensures fate[n] == if Blocker(p, s, n) == "" then Ran(n in errs) else Skipped(Blocker(p, s, n))
    ensures forall d :: d in p.deps[n] ==> Finished(s.log, d)
  {
    MissingNone(p.deps[n], Done(s));
    DecisionIsMeaning(p, errs, fate, s, n);
  }

  lemma NoDependsNoBlocker(p: Plan, s: State, n: string)
    requires n in p.deps && Missing(p.deps[n], {}) == 0
    ensures Blocker(p, s, n) == ""
  {
  }

  lemma SeedKeepsDegrees(p: Plan, s: State, n: string)
    requires Degrees(p, s) && CanSeed(s, n)
    requires Done(Seed(s, n)) == Done(s)
    ensures Degrees(p, Seed(s, n))
  {
  }

  lemma SeedMoves(p: Plan, errs: Errors, fate: map<string, Outcome>, s: State, n: string)
    requires Places(p, s) && Record(p, errs, s) && Verdicts(errs, fate, s) && CanSeed(s, n)
    requires s.inDegree[n] == 0 ==>
               && n !in s.place && n in p.deps && n in fate && fate[n] == Ran(n in errs)
               && forall d :: d in p.deps[n] ==> Finished(s.log, d)
    ensures Places(p, Seed(s, n)) && Record(p, errs, Seed(s, n)) && Verdicts(errs, fate, Seed(s, n))
    ensures Done(Seed(s, n)) == Done(s)
  {
    var t := s.(coordinator := Seeding(s.coordinator.rest - {n}));
    CoordinatorMoves(p, s, t);
    QuietMove(p, errs, s, t);
    SameVerdicts(errs, fate, s, t);
    if s.inDegree[n] == 0 {
      LaunchKeepsPlaces(p, t, n);
      LaunchRecords(p, errs, t, n);
    }
  }

  lemma SeedKeeps(p: Plan, errs: Errors, fate: map<string, Outcome>, s: State, n: string)
    requires Inv(p, errs, fate, s) && Solves(p, errs, fate) && CanSeed(s, n)
    ensures Inv(p, errs, fate, Seed(s, n))
  {
    if s.inDegree[n] == 0 {
      ZeroDegree(p, errs, fate, s, n);
      NoDependsNoBlocker(p, s, n);
    }
    SeedMoves(p, errs, fate, s, n);
    SeedKeepsDegrees(p, s, n);
  }

  lemma ScanKeepsCounts(p: Plan, s: State)
    requires Counts(p, s) && CanScan(p, s) && Done(Scan(p, s)) == Done(s)
    ensures Counts(p, Scan(p, s))
  {
    var n, rest, u := s.coordinator.todo[0], s.coordinator.todo[1..], Scan(p, s);
    assert Todo(u) == rest && Rest(u) == Rest(s) && u.inDegree == s.inDegree[n := s.inDegree[n] - 1];
    assert s.coordinator.todo == [n] + rest;
    assert multiset(Todo(s)) == multiset{n} + multiset(rest);
  }

  lemma ScanKeepsZeroes(p: Plan, s: State)
    requires Zeroes(p, s) && CanScan(p, s) && s.coordinator.todo[0] !in s.place
    ensures Zeroes(p, Scan(p, s))
  {
  }

  /** The dependent looked at is not decided about yet, and at degree one nothing else holds it back. */
  lemma ScanUndecided(p: Plan, s: State)
    requires Degrees(p, s) && CanScan(p, s)
    ensures s.coordinator.todo[0] !in s.place
    ensures s.inDegree[s.coordinator.todo[0]] == 1 ==> Missing(p.deps[s.coordinator.todo[0]], Done(s)) == 0
    ensures Done(Scan(p, s)) == Done(s)
  {
    assert s.coordinator.todo[0] in multiset(Todo(s));
  }

  lemma LaunchMoves(p: Plan, errs: Errors, fate: map<string, Outcome>, s: State, n: string)
    requires Places(p, s) && Record(p, errs, s) && Verdicts(errs, fate, s)
    requires n in p.deps && n !in s.place && n in fate && fate[n] == Ran(n in errs)
    requires forall d :: d in p.deps[n] ==> Finished(s.log, d)
    ensures Places(p, Launch(s, n)) && Record(p, errs, Launch(s, n)) && Verdicts(errs, fate, Launch(s, n))
  {
    LaunchKeepsPlaces(p, s, n);
    LaunchRecords(p, errs, s, n);
  }

  lemma SkipMoves(p: Plan, errs: Errors, fate: map<string, Outcome>, s: State, n: string, failedDep: string, rest: seq<string>)
    requires Places(p, s) && Record(p, errs, s) && Verdicts(errs, fate, s) && s.coordinator.Scanning?
    requires n in p.deps && n !in s.place && n in fate && fate[n] == Skipped(failedDep)
    requires forall d :: d in p.deps[n] ==> Finished(s.log, d)
    ensures var t := Skip(s, n, failedDep, rest); Places(p, t) && Record(p, errs, t) && Verdicts(errs, fate, t)
  {
    SkipKeepsPlaces(p, s, n, failedDep, rest);
    SkipRecords(p, errs, s, n, failedDep, rest);
  }

  lemma CountDownMoves(p: Plan, errs: Errors, fate: map<string, Outcome>, s: State, t: State)
    requires Places(p, s) && Record(p, errs, s) && Verdicts(errs, fate, s) && CanScan(p, s)
    requires t == s.(inDegree := t.inDegree, coordinator := Scanning(s.coordinator.todo[1..]))
    ensures Places(p, t) && Record(p, errs, t) && Verdicts(errs, fate, t)
  {
    CoordinatorMoves(p, s, t);
    QuietMove(p, errs, s, t);
  }

  lemma ScanMoves(p: Plan, errs: Errors, fate: map<string, Outcome>, s: State)
    requires Places(p, s) && Record(p, errs, s) && Verdicts(errs, fate, s) && CanScan(p, s)
    requires var n := s.coordinator.todo[0];
             && n !in s.place && n in fate
             && (s.inDegree[n] == 1 ==>
                  && (forall d :: d in p.deps[n] ==> Finished(s.log, d))
                  && fate[n] == if Blocker(p, s, n) == "" then Ran(n in errs) else Skipped(Blocker(p, s, n)))
    ensures Places(p, Scan(p, s)) && Record(p, errs, Scan(p, s)) && Verdicts(errs, fate, Scan(p, s))
  {
    var n, rest := s.coordinator.todo[0], s.coordinator.todo[1..];
    var t := s.(inDegree := s.inDegree[n := s.inDegree[n] - 1], coordinator := Scanning(rest));
    CountDownMoves(p, errs, fate, s, t);
    if t.inDegree[n] == 0 {
      if Blocker(p, s, n) == "" {
        LaunchMoves(p, errs, fate, t, n);
      } else {
        SkipMoves(p, errs, fate, t, n, Blocker(p, s, n), rest);
      }
    }
  }

  lemma ScanKeeps(p: Plan, errs: Errors, fate: map<string, Outcome>, s: State)
    requires Inv(p, errs, fate, s) && Solves(p, errs, fate) && CanScan(p, s)
    ensures Inv(p, errs, fate, Scan(p, s))
  {
    ScanUndecided(p, s);
    if s.inDegree[s.coordinator.todo[0]] == 1 {
      ZeroDegree(p, errs, fate, s, s.coordinator.todo[0]);
    }
    ScanMoves(p, errs, fate, s);
    ScanKeepsCounts(p, s);
    ScanKeepsZeroes(p, s);
  }

  // ----- Every run -----

  /** One step of any goroutine. A send goes ahead only while the channel, of capacity |deps|, has room. */
  ghost predicate Next(p: Plan, errs: Errors, dependents: map<string, seq<string>>, s: State, t: State) {
    || (exists n :: CanSeed(s, n) && t == Seed(s, n))
    || (s.coordinator == Seeding({}) && t == s.(coordinator := Waiting))
    || (exists n :: At(s, n, InBody) && t == Return(errs, s, n))
    || (exists n :: At(s, n, AboutToSend) && |s.channel| < |p.deps| && t == Send(s, n))
    || (CanReceive(s) && t == Receive(dependents, s))
    || (CanScan(p, s) && t == Scan(p, s))
    || (s.coordinator == Scanning([]) && t == s.(coordinator := Waiting))
    || (s.coordinator.Sending? && |s.channel| < |p.deps| && t == SendSkipped(s))
  }

  ghost predicate Initial(p: Plan, s: State) {
    && s.inDegree == (map n | n in p.deps :: |p.deps[n]|)
    && s.failed == {} && s.firstErr == None && s.channel == [] && s.running == 0
    && s.coordinator == Seeding(p.deps.Keys)
    && s.place == map[] && s.skipped == map[] && s.log == []
  }

  ghost function Fates(p: Plan, errs: Errors): map<string, Outcome> {
    map n | n in p.deps :: Meaning(p, errs, n)
  }

  lemma FatesSolve(p: Plan, errs: Errors)
    ensures Solves(p, errs, Fates(p, errs))
  {
    var fate := Fates(p, errs);
    forall n | n in p.deps ensures SolvesAt(p, errs, fate, n) {
      MeaningEquation(p, errs, n);
      assert (set d | d in fate && fate[d].Failed()) == FailedTasks(p, errs);
    }
  }

  lemma {:induction false} MissingAll(ds: seq<string>)
    ensures Missing(ds, {}) == |ds|
  {
    if ds != [] { MissingAll(ds[1..]); }
  }

  lemma InitialInv(p: Plan, errs: Errors, fate: map<string, Outcome>, s: State)
    requires Initial(p, s)
    ensures Inv(p, errs, fate, s)
  {
    assert Live(s) == {} && Done(s) == {};
    forall n | n in p.deps ensures s.inDegree[n] == Missing(p.deps[n], Done(s)) + multiset(Todo(s))[n] {
      MissingAll(p.deps[n]);
    }
    assert BodyFailures(errs, s) == {};
  }

  /** The coordinator's loop over entry points, or over dependents, ends. */
  lemma LoopEndKeeps(p: Plan, errs: Errors, fate: map<string, Outcome>, s: State)
    requires Inv(p, errs, fate, s) && (s.coordinator == Seeding({}) || s.coordinator == Scanning([]))
    ensures Inv(p, errs, fate, s.(coordinator := Waiting))
  {
    var t := s.(coordinator := Waiting);
    CoordinatorMoves(p, s, t);
    QuietMove(p, errs, s, t);
    SameVerdicts(errs, fate, s, t);
    SameDegrees(p, s, t);
  }

  lemma NextKeeps(p: Plan, errs: Errors, fate: map<string, Outcome>, dependents: map<string, seq<string>>, s: State, t: State)
    requires Inv(p, errs, fate, s) && Solves(p, errs, fate) && DependentsOf(p, dependents)
    requires Next(p, errs, dependents, s, t)
    ensures Inv(p, errs, fate, t)
  {
    if n :| CanSeed(s, n) && t == Seed(s, n) {
      SeedKeeps(p, errs, fate, s, n);
    } else if n :| At(s, n, InBody) && t == Return(errs, s, n) {
      ReturnKeeps(p, errs, fate, s, n);
    } else if n :| At(s, n, AboutToSend) && t == Send(s, n) {
      SendKeeps(p, errs, fate, s, n);
    } else if CanReceive(s) && t == Receive(dependents, s) {
      ReceiveKeeps(p, errs, fate, dependents, s);
    } else if CanScan(p, s) && t == Scan(p, s) {
      ScanKeeps(p, errs, fate, s);
    } else if s.coordinator.Sending? && t == SendSkipped(s) {
      SendSkippedKeeps(p, errs, fate, s);
    } else {
      LoopEndKeeps(p, errs, fate, s);
    }
  }

  ghost predicate IsRun(p: Plan, errs: Errors, dependents: map<string, seq<string>>, run: seq<State>) {
    && run != []
    && Initial(p, run[0])
    && forall i :: 0 <= i < |run| - 1 ==> Next(p, errs, dependents, run[i], run[i + 1])
  }

  lemma {:induction false} RunKeeps(p: Plan, errs: Errors, dependents: map<string, seq<string>>, run: seq<State>, i: nat)
    requires IsRun(p, errs, dependents, run) && DependentsOf(p, dependents) && i < |run|
    ensures Inv(p, errs, Fates(p, errs), run[i])
  {
    FatesSolve(p, errs);
    if i == 0 {
      InitialInv(p, errs, Fates(p, errs), run[0]);
    } else {
      RunKeeps(p, errs, dependents, run, i - 1);
      NextKeeps(p, errs, Fates(p, errs), dependents, run[i - 1], run[i - 1 + 1]);
    }
  }

  /** Reading a well-ordered log at one position. */
  lemma {:induction false} LogReads(p: Plan, log: seq<Event>, i: nat)
    requires WellOrdered(p, log) && i < |log|
    ensures Justified(p, log[..i], log[i])
    decreases |log|
  {
    var last := |log| - 1;
    if i < last {
      LogReads(p, log[..last], i);
      assert log[..last][..i] == log[..i];
    }
  }

  /** What holds at every moment of every interleaving: a body is launched, and a task skipped, only as the
    * plain meaning says; each at most once and only after everything the task depends on has finished;
    * `running` counts what is not yet received; and whoever is about to send finds room in the channel. */
  lemma EveryMoment(p: Plan, errs: Errors, dependents: map<string, seq<string>>, run: seq<State>, i: nat)
    requires IsRun(p, errs, dependents, run) && DependentsOf(p, dependents) && i < |run|
    ensures forall n :: Launched(n) in run[i].log ==> Meaning(p, errs, n) == Ran(n in errs)
    ensures forall n, b :: Returned(n, b) in run[i].log ==> b == (n in errs)
    ensures forall n, d :: DepFailed(n, d) in run[i].log ==> Meaning(p, errs, n) == Skipped(d)
    ensures forall j :: 0 <= j < |run[i].log| ==> Justified(p, run[i].log[..j], run[i].log[j])
    ensures run[i].running == |Live(run[i])|
    ensures forall n :: At(run[i], n, AboutToSend) || At(run[i], n, Held) ==> |run[i].channel| < |p.deps|
    ensures run[i].coordinator.Waiting? && run[i].running > 0 ==>
              exists t :: Next(p, errs, dependents, run[i], t)
  {
    var s, fate := run[i], Fates(p, errs);
    RunKeeps(p, errs, dependents, run, i);
    forall n | Launched(n) in s.log ensures Meaning(p, errs, n) == Ran(n in errs) {
      assert Happened(errs, s, Launched(n));
      assert fate[n] == Ran(n in errs);
    }
    forall n, b | Returned(n, b) in s.log ensures b == (n in errs) {
      assert Happened(errs, s, Returned(n, b));
    }
    forall n, d | DepFailed(n, d) in s.log ensures Meaning(p, errs, n) == Skipped(d) {
      assert Happened(errs, s, DepFailed(n, d));
      assert fate[n] == Skipped(d);
    }
    forall j | 0 <= j < |s.log| ensures Justified(p, s.log[..j], s.log[j]) {
      LogReads(p, s.log, j);
    }
    forall n | At(s, n, AboutToSend) || At(s, n, Held) ensures |s.channel| < |p.deps| {
      assert !At(s, n, Queued);
      RoomInChannel(p, s, n);
    }
    if s.coordinator.Waiting? && s.running > 0 {
      SomethingCanMove(p, s);
      var n :| At(s, n, InBody) || (At(s, n, AboutToSend) && |s.channel| < |p.deps|) || At(s, n, Queued);
      if At(s, n, InBody) {
        assert Next(p, errs, dependents, s, Return(errs, s, n));
      } else if At(s, n, AboutToSend) {
        assert Next(p, errs, dependents, s, Send(s, n));
      } else {
        assert n in s.channel;
        assert Next(p, errs, dependents, s, Receive(dependents, s));
      }
    }
  }

  // ----- Termination -----

  ghost function With(place: map<string, Place>, w: Place): set<string> {
    set n | n in place && place[n] == w
  }

  /** How many moves the task at `w` has left before its completion is received. */
  function MovesLeft(w: Place): nat {
    match w
    case InBody => 3
    case AboutToSend => 2
    case Held => 2
    case Queued => 1
    case Received => 0
  }

  ghost function TotalMoves(place: map<string, Place>): nat {
    3 * |With(place, InBody)| + 2 * |With(place, AboutToSend)| + 2 * |With(place, Held)| + |With(place, Queued)|
  }

  lemma WithAfter(place: map<string, Place>, n: string, w: Place, v: Place)
    requires n !in place || place[n] != w
    ensures |With(place[n := w], v)|
         == |With(place, v)| + (if v == w then 1 else 0) - (if n in place && place[n] == v then 1 else 0)
  {
    var after := place[n := w];
    if v == w {
      assert With(after, v) == With(place, v) + {n};
    } else if n in place && place[n] == v {
      assert With(after, v) == With(place, v) - {n};
    } else {
      assert With(after, v) == With(place, v);
    }
  }

  /** A task that changes place changes the total by the difference between its two places. */
  lemma MovesAfter(place: map<string, Place>, n: string, w: Place)
    requires n !in place || place[n] != w
    ensures TotalMoves(place[n := w])
         == TotalMoves(place) + MovesLeft(w) - if n in place then MovesLeft(place[n]) else 0
  {
    WithAfter(place, n, w, InBody);
    WithAfter(place, n, w, AboutToSend);
    WithAfter(place, n, w, Held);
    WithAfter(place, n, w, Queued);
  }

  /** Moves left to all goroutines, counting four for every task not decided about. */
  ghost function MovesAhead(p: Plan, place: map<string, Place>): nat {
    4 * |p.deps.Keys - place.Keys| + TotalMoves(place)
  }

  ghost function LoopLeft(c: Coordinator): nat {
    match c
    case Seeding(rest) => |rest| + 1
    case Waiting => 0
    case Scanning(todo) => |todo| + 1
    case Sending(_, todo) => |todo| + 1
  }

  /** A goroutine has moved, or the coordinator's loop has advanced. */
  ghost predicate Closer(p: Plan, s: State, t: State) {
    || MovesAhead(p, t.place) < MovesAhead(p, s.place)
    || (t.place == s.place && LoopLeft(t.coordinator) < LoopLeft(s.coordinator))
  }

  lemma Decided(p: Plan, place: map<string, Place>, n: string, w: Place)
    requires n in p.deps && n !in place
    ensures MovesAhead(p, place[n := w]) < MovesAhead(p, place)
  {
    MovesAfter(place, n, w);
    assert p.deps.Keys - place[n := w].Keys == (p.deps.Keys - place.Keys) - {n};
  }

  lemma Moved(p: Plan, place: map<string, Place>, n: string, w: Place)
    requires n in place && MovesLeft(w) < MovesLeft(place[n])
    ensures MovesAhead(p, place[n := w]) < MovesAhead(p, place)
  {
    MovesAfter(place, n, w);
    assert place[n := w].Keys == place.Keys;
  }

  /** What the invariant says about the tasks the next step is about to move. */
  ghost predicate Poised(p: Plan, s: State) {
    && (s.channel != [] ==> At(s, s.channel[0], Queued))
    && (s.coordinator.Sending? ==> At(s, s.coordinator.node, Held))
    && (CanScan(p, s) && s.inDegree[s.coordinator.todo[0]] == 1 ==> s.coordinator.todo[0] !in s.place)
    && (forall n :: CanSeed(s, n) && s.inDegree[n] == 0 ==> n in p.deps && n !in s.place)
  }

  lemma PlacesPoise(p: Plan, s: State)
    requires Places(p, s)
    ensures s.channel != [] ==> At(s, s.channel[0], Queued)
    ensures s.coordinator.Sending? ==> At(s, s.coordinator.node, Held)
  {
  }

  lemma InvPoised(p: Plan, s: State)
    requires Places(p, s) && Zeroes(p, s)
    ensures Poised(p, s)
  {
    PlacesPoise(p, s);
  }

  lemma ScanPlace(p: Plan, s: State)
    requires CanScan(p, s)
    ensures var n := s.coordinator.todo[0];
            if s.inDegree[n] == 1 then
              Scan(p, s).place == s.place[n := InBody] || Scan(p, s).place == s.place[n := Held]
            else
              Scan(p, s).place == s.place && LoopLeft(Scan(p, s).coordinator) < LoopLeft(s.coordinator)
  {
  }

  lemma ScanIsCloser(p: Plan, s: State)
    requires CanScan(p, s) && (s.inDegree[s.coordinator.todo[0]] == 1 ==> s.coordinator.todo[0] !in s.place)
    ensures Closer(p, s, Scan(p, s))
  {
    var n := s.coordinator.todo[0];
    ScanPlace(p, s);
    if s.inDegree[n] == 1 {
      Decided(p, s.place, n, InBody);
      Decided(p, s.place, n, Held);
    }
  }

  lemma SeedIsCloser(p: Plan, s: State, n: string)
    requires CanSeed(s, n) && (s.inDegree[n] == 0 ==> n in p.deps && n !in s.place)
    ensures Closer(p, s, Seed(s, n))
  {
    if s.inDegree[n] == 0 { Decided(p, s.place, n, InBody); }
  }

  lemma MoveIsCloser(p: Plan, errs: Errors, s: State, n: string)
    ensures At(s, n, InBody) ==> Closer(p, s, Return(errs, s, n))
    ensures At(s, n, AboutToSend) ==> Closer(p, s, Send(s, n))
    ensures At(s, n, Held) && s.coordinator.Sending? && s.coordinator.node == n ==> Closer(p, s, SendSkipped(s))
  {
    if At(s, n, InBody) { Moved(p, s.place, n, AboutToSend); }
    if At(s, n, AboutToSend) || At(s, n, Held) { Moved(p, s.place, n, Queued); }
  }

  lemma ReceiveIsCloser(p: Plan, dependents: map<string, seq<string>>, s: State)
    requires CanReceive(s) && At(s, s.channel[0], Queued)
    ensures Closer(p, s, Receive(dependents, s))
  {
    Moved(p, s.place, s.channel[0], Received);
  }

  /** Every step of every goroutine brings the walk closer to its end, so no walk goes on for ever. */
  lemma NextIsCloser(p: Plan, errs: Errors, dependents: map<string, seq<string>>, s: State, t: State)
    requires Poised(p, s)
    requires Next(p, errs, dependents, s, t)
    ensures Closer(p, s, t)
  {
    if n :| CanSeed(s, n) && t == Seed(s, n) {
      SeedIsCloser(p, s, n);
    } else if n :| At(s, n, InBody) && t == Return(errs, s, n) {
      MoveIsCloser(p, errs, s, n);
    } else if n :| At(s, n, AboutToSend) && t == Send(s, n) {
      MoveIsCloser(p, errs, s, n);
    } else if CanReceive(s) && t == Receive(dependents, s) {
      ReceiveIsCloser(p, dependents, s);
    } else if CanScan(p, s) && t == Scan(p, s) {
      ScanIsCloser(p, s);
    } else if s.coordinator.Sending? && t == SendSkipped(s) {
      MoveIsCloser(p, errs, s, s.coordinator.node);
    }
  }
}
