/** Narrowing joined to the walk: what a narrowed run does, against the run of the whole schedule. */
module Retry {
  import opened Dag
  import opened Schedule
  import opened Narrow
  import opened Walker

  function StripDeps(deps: map<string, seq<string>>, drop: set<string>): map<string, seq<string>> {
    map n | n in deps && n !in drop :: Without(deps[n], drop)
  }

  /** The plan of a narrowed task list (see `PlanOfStrip`). */
  function StripPlan(p: Plan, drop: set<string>): Plan {
    Plan(StripDeps(p.deps, drop), p.carryOn - drop)
  }

  lemma StripDepsOfOne(deps: map<string, seq<string>>, drop: set<string>, name: string, depends: seq<string>)
    ensures StripDeps(deps[name := depends], drop)
         == if name in drop then StripDeps(deps, drop) else StripDeps(deps, drop)[name := Without(depends, drop)]
  {
  }

  lemma DepsOfAppend(tasks: seq<Task>, t: Task)
    ensures DepsOf(tasks + [t]) == DepsOf(tasks)[t.name := t.depends]
  {
    assert (tasks + [t])[..|tasks|] == tasks;
  }

  lemma {:induction false} DepsOfStrip(tasks: seq<Task>, drop: set<string>)
    ensures DepsOf(Strip(tasks, drop)) == StripDeps(DepsOf(tasks), drop)
  {
    if tasks != [] {
      var front, t := tasks[..|tasks| - 1], tasks[|tasks| - 1];
      DepsOfStrip(front, drop);
      StripDepsOfOne(DepsOf(front), drop, t.name, t.depends);
      if t.name !in drop {
        DepsOfAppend(Strip(front, drop), t.(depends := Without(t.depends, drop)));
      }
    }
  }

  lemma {:induction false} CarryOnOfStrip(tasks: seq<Task>, drop: set<string>)
    ensures CarryOn(Strip(tasks, drop)) == CarryOn(tasks) - drop
  {
    if tasks != [] {
      var front, t := tasks[..|tasks| - 1], tasks[|tasks| - 1];
      CarryOnOfStrip(front, drop);
      assert tasks == front + [t];
      CarryOnOfAppend(front, t);
      if t.name !in drop {
        CarryOnOfAppend(Strip(front, drop), t.(depends := Without(t.depends, drop)));
      }
    }
  }

  lemma CarryOnOfAppend(tasks: seq<Task>, t: Task)
    ensures CarryOn(tasks + [t]) == CarryOn(tasks) + if t.continueOnFailure then {t.name} else {}
  {
    assert forall u :: u in tasks + [t] <==> u in tasks || u == t;
  }

  lemma PlanOfStrip(tasks: seq<Task>, drop: set<string>)
    ensures PlanOf(Strip(tasks, drop)) == StripPlan(PlanOf(tasks), drop)
  {
    DepsOfStrip(tasks, drop);
    CarryOnOfStrip(tasks, drop);
  }

  // ----- Dropping tasks that succeed -----

  lemma {:induction false} WithoutFront(ds: seq<string>, drop: set<string>)
    requires ds != []
    ensures Without(ds, drop) == (if ds[0] in drop then [] else [ds[0]]) + Without(ds[1..], drop)
    decreases |ds|
  {
    var last := |ds| - 1;
    if last > 0 {
      WithoutFront(ds[..last], drop);
      assert ds[..last][1..] == ds[1..][..last - 1];
      assert ds[1..][last - 1] == ds[last];
    }
  }

  lemma {:induction false} FirstFailedWithout(ds: seq<string>, drop: set<string>, failed: set<string>, failed': set<string>)
    requires forall d :: d in ds && d in drop ==> d !in failed
    requires forall d :: d in ds && d !in drop ==> (d in failed <==> d in failed')
    ensures FirstFailed(Without(ds, drop), failed') == FirstFailed(ds, failed)
    decreases |ds|
  {
    if ds != [] {
      WithoutFront(ds, drop);
      FirstFailedWithout(ds[1..], drop, failed, failed');
      assert ds[0] in ds && forall d :: d in ds[1..] ==> d in ds;
      if ds[0] in drop {
        assert Without(ds, drop) == Without(ds[1..], drop);
      } else {
        assert Without(ds, drop)[1..] == Without(ds[1..], drop);
      }
    }
  }

  /** No dropped task that a task left depends on fails in the whole run, and the bodies of the tasks left do in both
    * runs as they do in one. */
  ghost predicate DropsNoFailure(p: Plan, drop: set<string>, errs: Errors, errs': Errors) {
    && (forall n, d :: n in p.deps && n !in drop && d in p.deps[n] && d in drop ==> !Meaning(p, errs, d).Failed())
    && (forall n :: n in p.deps && n !in drop ==> (n in errs <==> n in errs'))
  }

  /** The whole run reaches every dropped task on which a task depends that the narrowed run reaches. */
  ghost predicate DropsReached(p: Plan, drop: set<string>, errs: Errors, errs': Errors) {
    forall n, d :: n in p.deps && n !in drop && d in p.deps[n] && d in drop && !Meaning(StripPlan(p, drop), errs', n).Unreached? ==>
      !Meaning(p, errs, d).Unreached?
  }

  /** Once what is left of a task's depends means the same, so does the task. */
  lemma StripSettles(p: Plan, drop: set<string>, errs: Errors, errs': Errors, n: string)
    requires DropsNoFailure(p, drop, errs, errs') && n in p.deps && n !in drop
    requires forall d :: d in p.deps[n] ==> !Meaning(p, errs, d).Unreached?
    requires forall d :: d in p.deps[n] && d !in drop ==> Meaning(StripPlan(p, drop), errs', d) == Meaning(p, errs, d)
    ensures Meaning(StripPlan(p, drop), errs', n) == Meaning(p, errs, n)
  {
    var q := StripPlan(p, drop);
    WithoutHas(p.deps[n], drop);
    MeaningEquation(p, errs, n);
    MeaningEquation(q, errs', n);
    forall d | d in p.deps[n] && d !in drop ensures d in FailedTasks(p, errs) <==> d in FailedTasks(q, errs') {
      MeaningEquation(p, errs, d);
      MeaningEquation(q, errs', d);
    }
    FirstFailedWithout(p.deps[n], drop, FailedTasks(p, errs), FailedTasks(q, errs'));
  }

  lemma {:induction false} StripForward(p: Plan, drop: set<string>, errs: Errors, errs': Errors, n: string, k: nat)
    requires DropsNoFailure(p, drop, errs, errs') && n !in drop
    requires !Fate(p, errs, n, k).Unreached?
    ensures Meaning(StripPlan(p, drop), errs', n) == Meaning(p, errs, n)
    decreases k
  {
    forall d | d in p.deps[n]
      ensures !Meaning(p, errs, d).Unreached?
      ensures d !in drop ==> Meaning(StripPlan(p, drop), errs', d) == Meaning(p, errs, d)
    {
      EnoughLevels(p, errs, d, k - 1);
      if d !in drop { StripForward(p, drop, errs, errs', d, k - 1); }
    }
    StripSettles(p, drop, errs, errs', n);
  }

  lemma {:induction false} StripBackward(p: Plan, drop: set<string>, errs: Errors, errs': Errors, n: string, k: nat)
    requires DropsReached(p, drop, errs, errs') && n !in drop
    requires !Fate(StripPlan(p, drop), errs', n, k).Unreached?
    ensures !Meaning(p, errs, n).Unreached?
    decreases k
  {
    var q := StripPlan(p, drop);
    WithoutHas(p.deps[n], drop);
    EnoughLevels(q, errs', n, k);
    forall d | d in p.deps[n] ensures !Meaning(p, errs, d).Unreached? {
      if d !in drop {
        assert d in q.deps[n];
        StripBackward(p, drop, errs, errs', d, k - 1);
      }
    }
    MeaningEquation(p, errs, n);
  }

  /** A narrowed run means for every task left what the whole run means for it when the dropped tasks do not fail and
    * are reached where it matters, whatever the graph: cycles, missing names and continue_on_failure included. */
  lemma MeaningOfStrip(p: Plan, drop: set<string>, errs: Errors, errs': Errors, n: string)
    requires DropsNoFailure(p, drop, errs, errs') && DropsReached(p, drop, errs, errs') && n !in drop
    ensures Meaning(StripPlan(p, drop), errs', n) == Meaning(p, errs, n)
  {
    if !Meaning(p, errs, n).Unreached? {
      StripForward(p, drop, errs, errs', n, |p.deps|);
    } else if !Meaning(StripPlan(p, drop), errs', n).Unreached? {
      StripBackward(p, drop, errs, errs', n, |StripPlan(p, drop).deps|);
    }
  }

  /** And that they are reached where it matters is exactly what it takes. */
  lemma MeaningOfStripIff(p: Plan, drop: set<string>, errs: Errors, errs': Errors)
    requires DropsNoFailure(p, drop, errs, errs')
    ensures (forall n :: n !in drop ==> Meaning(StripPlan(p, drop), errs', n) == Meaning(p, errs, n))
       <==> DropsReached(p, drop, errs, errs')
  {
    if DropsReached(p, drop, errs, errs') {
      forall n | n !in drop ensures Meaning(StripPlan(p, drop), errs', n) == Meaning(p, errs, n) {
        MeaningOfStrip(p, drop, errs, errs', n);
      }
    }
    if forall n :: n !in drop ==> Meaning(StripPlan(p, drop), errs', n) == Meaning(p, errs, n) {
      forall n | n in p.deps && n !in drop && !Meaning(StripPlan(p, drop), errs', n).Unreached?
        ensures forall d :: d in p.deps[n] ==> !Meaning(p, errs, d).Unreached?
      {
        MeaningEquation(p, errs, n);
      }
    }
  }

  // ----- Retrying a failed run -----

  /** The errors of a run in which the bodies in `done` return none and the others behave as in `errs`. */
  function Reusing(done: set<string>, errs: Errors): Errors {
    errs - done
  }

  /** What succeeded once succeeds whenever the succeeded tasks do, whatever the others return: a task
    * only ever succeeds because of tasks that succeeded, or because it carries on regardless. */
  lemma {:induction false} SucceedsAgain(p: Plan, first: Errors, second: Errors, n: string, k: nat)
    requires "" !in p.deps
    requires Fate(p, first, n, k) == Ran(false)
    ensures Meaning(p, Reusing(SucceededTasks(p, first), second), n) == Ran(false)
    decreases k
  {
    var done := SucceededTasks(p, first);
    var errs := Reusing(done, second);
    EnoughLevels(p, first, n, k);
    assert n in done && n !in errs;
    forall d | d in p.deps[n] ensures !Meaning(p, errs, d).Unreached? {
      EnoughLevels(p, first, d, k - 1);
      UnreachedIgnoresErrors(p, first, errs, d);
    }
    MeaningEquation(p, errs, n);
    if n !in p.carryOn {
      var failed := FailedWithin(p, first, p.deps[n], k - 1);
      FirstFailedIs(p.deps[n], failed);
      assert "" !in failed;
      forall d | d in p.deps[n] ensures d !in FailedTasks(p, errs) {
        assert d !in failed;
        RanOrSkippedAt(p, first, d, k - 1);
        SucceedsAgain(p, first, second, d, k - 1);
      }
      FirstFailedIs(p.deps[n], FailedTasks(p, errs));
    }
  }

  lemma RanOrSkippedAt(p: Plan, errs: Errors, n: string, k: nat)
    requires !Fate(p, errs, n, k).Unreached? && !Fate(p, errs, n, k).Failed()
    ensures Fate(p, errs, n, k) == Ran(false)
  {
  }

  /** Retry-failed means: the whole schedule, with the results of the tasks that succeeded reused. Holds for
    * every graph and for every way the retried bodies may behave. */
  lemma RetryFailedMeaning(p: Plan, first: Errors, second: Errors, n: string)
    requires "" !in p.deps
    requires n !in SucceededTasks(p, first)
    ensures Meaning(StripPlan(p, SucceededTasks(p, first)), second, n)
         == Meaning(p, Reusing(SucceededTasks(p, first), second), n)
  {
    var done := SucceededTasks(p, first);
    var errs := Reusing(done, second);
    forall d | d in done ensures Meaning(p, errs, d) == Ran(false) {
      SucceedsAgain(p, first, second, d, |p.deps|);
    }
    MeaningOfStrip(p, done, errs, second, n);
  }

  lemma RetriedAreReached(p: Plan, first: Errors, second: Errors)
    requires "" !in p.deps && Closed(p) && Acyclic(p)
    ensures UnreachedTasks(StripPlan(p, SucceededTasks(p, first)), second) == {}
  {
    var done := SucceededTasks(p, first);
    var q, errs := StripPlan(p, done), Reusing(done, second);
    LeftoversIffCycle(p, errs);
    forall n | n in q.deps ensures n !in UnreachedTasks(q, second) {
      RetryFailedMeaning(p, first, second, n);
      assert n !in UnreachedTasks(p, errs);
    }
  }

  /** On a graph without cycles or missing names, if no retried body returns an error then the two runs
    * together succeed on every task, and no task succeeds in both. */
  lemma EachSucceedsOnce(p: Plan, first: Errors, second: Errors)
    requires "" !in p.deps && Closed(p) && Acyclic(p)
    requires FailedBodies(StripPlan(p, SucceededTasks(p, first)), second) == {}
    ensures SucceededTasks(p, first) !! SucceededTasks(StripPlan(p, SucceededTasks(p, first)), second)
    ensures SucceededTasks(p, first) + SucceededTasks(StripPlan(p, SucceededTasks(p, first)), second) == p.deps.Keys
  {
    var q := StripPlan(p, SucceededTasks(p, first));
    RetriedAreReached(p, first, second);
    EverythingSucceedsIff(q, second);
    forall n | n in p.deps && n !in SucceededTasks(p, first) ensures n in SucceededTasks(q, second) {
      assert n in q.deps;
    }
  }

  lemma StripStaysSound(p: Plan, drop: set<string>)
    ensures Closed(p) ==> Closed(StripPlan(p, drop))
    ensures Acyclic(p) ==> Acyclic(StripPlan(p, drop))
  {
    var q := StripPlan(p, drop);
    forall n | n in q.deps ensures forall d :: d in q.deps[n] <==> d in p.deps[n] && d !in drop {
      WithoutHas(p.deps[n], drop);
    }
    forall path | IsCycle(q, path) ensures IsCycle(p, path) {
    }
  }

  /** Who succeeded without carrying on did so because everything it depends on succeeded. */
  lemma SucceededBecause(tasks: seq<Task>, errs: Errors, a: string, b: string)
    requires UniqueNames(tasks) && "" !in Names(tasks) && DependsOn(tasks, a, b)
    requires a in SucceededTasks(PlanOf(tasks), errs) && a !in CarryOn(tasks)
    ensures b in SucceededTasks(PlanOf(tasks), errs)
  {
    var p := PlanOf(tasks);
    DepsKeys(tasks);
    DependsOnIsEntry(tasks, a, b);
    MeaningEquation(p, errs, a);
    assert !Meaning(p, errs, b).Unreached?;
    MeaningEquation(p, errs, b);
    FirstFailedIs(p.deps[a], FailedTasks(p, errs));
    assert b !in FailedTasks(p, errs);
    RanOrSkippedAt(p, errs, b, |p.deps|);
  }

  /** Without continue_on_failure among them, the tasks that succeeded are closed under depends, so whoever
    * depends on a task that did not succeed did not succeed either. */
  lemma SucceededKeepDependents(tasks: seq<Task>, errs: Errors)
    requires UniqueNames(tasks) && "" !in Names(tasks)
    requires SucceededTasks(PlanOf(tasks), errs) !! CarryOn(tasks)
    ensures KeepsDependents(tasks, SucceededTasks(PlanOf(tasks), errs))
  {
    forall a, b | DependsOn(tasks, a, b) && a in SucceededTasks(PlanOf(tasks), errs)
      ensures b in SucceededTasks(PlanOf(tasks), errs)
    {
      SucceededBecause(tasks, errs, a, b);
    }
  }

  /** Along a chain, success goes on to the end unless a task that carries on is in between. */
  lemma {:induction false} SuccessGoesOn(tasks: seq<Task>, errs: Errors, path: seq<string>, i: nat)
    requires UniqueNames(tasks) && "" !in Names(tasks) && Chain(tasks, path) && 0 < i < |path|
    requires FreeOf(path, SucceededTasks(PlanOf(tasks), errs) * CarryOn(tasks))
    requires path[i] in SucceededTasks(PlanOf(tasks), errs)
    ensures path[|path| - 1] in SucceededTasks(PlanOf(tasks), errs)
    decreases |path| - i
  {
    if i < |path| - 1 {
      SucceededBecause(tasks, errs, path[i], path[i + 1]);
      SuccessGoesOn(tasks, errs, path, i + 1);
    }
  }

  /** The payload of retry-failed, for every graph: of two tasks it runs again one waits for the other exactly when
    * the original has a chain between them with no task on it that carried on and succeeded. It stays closed and
    * without cycles if the original was. */
  lemma RetryFailedKeepsOrdering(tasks: seq<Task>, errs: Errors, a: string, b: string)
    requires UniqueNames(tasks) && "" !in Names(tasks)
    requires a !in SucceededTasks(PlanOf(tasks), errs) && b !in SucceededTasks(PlanOf(tasks), errs)
    ensures var done := SucceededTasks(PlanOf(tasks), errs);
            && (DependsTransitively(Strip(tasks, done), a, b) <==> OrderedAround(tasks, a, b, done * CarryOn(tasks)))
            && (Closed(PlanOf(tasks)) ==> Closed(PlanOf(Strip(tasks, done))))
            && (Acyclic(PlanOf(tasks)) ==> Acyclic(PlanOf(Strip(tasks, done))))
  {
    var done := SucceededTasks(PlanOf(tasks), errs);
    StripOrderIff(tasks, done, a, b);
    CarryingIsEnough(tasks, errs, a, b);
    PlanOfStrip(tasks, done);
    StripStaysSound(PlanOf(tasks), done);
  }

  lemma CarryingIsEnough(tasks: seq<Task>, errs: Errors, a: string, b: string)
    requires UniqueNames(tasks) && "" !in Names(tasks) && b !in SucceededTasks(PlanOf(tasks), errs)
    ensures OrderedAround(tasks, a, b, SucceededTasks(PlanOf(tasks), errs))
       <==> OrderedAround(tasks, a, b, SucceededTasks(PlanOf(tasks), errs) * CarryOn(tasks))
  {
    var done := SucceededTasks(PlanOf(tasks), errs);
    if path :| Chain(tasks, path) && |path| > 1 && path[0] == a && path[|path| - 1] == b && FreeOf(path, done) {
      assert FreeOf(path, done * CarryOn(tasks));
    }
    if path :| Chain(tasks, path) && |path| > 1 && path[0] == a && path[|path| - 1] == b
               && FreeOf(path, done * CarryOn(tasks)) {
      forall i | 0 < i < |path| - 1 ensures path[i] !in done {
        if path[i] in done { SuccessGoesOn(tasks, errs, path, i); }
      }
      assert FreeOf(path, done);
    }
  }

  // ----- When an ordering outlasts every retry -----

  /** The ordering of `a` after `b` is in every payload that retry-failed may make of the schedule with both in it. */
  ghost predicate OutlastsRetry(tasks: seq<Task>, a: string, b: string) {
    forall errs: Errors {:trigger SucceededTasks(PlanOf(tasks), errs)} ::
      a !in SucceededTasks(PlanOf(tasks), errs) && b !in SucceededTasks(PlanOf(tasks), errs) ==>
        DependsTransitively(Strip(tasks, SucceededTasks(PlanOf(tasks), errs)), a, b)
  }

  /** With bodies failing in `a` and `b` alone, whoever carries on strictly between them succeeds. */
  lemma CarrierSucceeds(tasks: seq<Task>, path: seq<string>, i: nat, errs: Errors)
    requires UniqueNames(tasks) && Closed(PlanOf(tasks)) && Acyclic(PlanOf(tasks))
    requires Chain(tasks, path) && 0 < i < |path| - 1 && path[i] in CarryOn(tasks)
    requires errs.Keys == {path[0], path[|path| - 1]}
    ensures path[i] in SucceededTasks(PlanOf(tasks), errs)
  {
    var p := PlanOf(tasks);
    var last := |path| - 1;
    ChainIsFollows(tasks, path);
    assert path[i] in p.deps;
    LeftoversIffCycle(p, errs);
    assert path[i] !in UnreachedTasks(p, errs);
    MeaningEquation(p, errs, path[i]);
    assert path[i] == path[0] ==> IsCycle(p, path[..i + 1]);
    assert path[i] == path[last] ==> IsCycle(p, path[i..]);
  }

  /** Of a schedule without cycles or missing names, an ordering outlasts every retry exactly when it does not rest on
    * tasks that carry on: some chain has none strictly between its ends. */
  lemma OutlastsRetryIff(tasks: seq<Task>, a: string, b: string)
    requires UniqueNames(tasks) && "" !in Names(tasks) && Closed(PlanOf(tasks)) && Acyclic(PlanOf(tasks))
    ensures OutlastsRetry(tasks, a, b) <==> OrderedAround(tasks, a, b, CarryOn(tasks))
  {
    if OrderedAround(tasks, a, b, CarryOn(tasks)) {
      forall errs: Errors | a !in SucceededTasks(PlanOf(tasks), errs) && b !in SucceededTasks(PlanOf(tasks), errs)
        ensures DependsTransitively(Strip(tasks, SucceededTasks(PlanOf(tasks), errs)), a, b)
      {
        BareIsFree(tasks, errs, a, b);
        RetryFailedKeepsOrdering(tasks, errs, a, b);
      }
    }
    if OutlastsRetry(tasks, a, b) {
      BothFail(tasks, a, b);
    }
  }

  lemma BareIsFree(tasks: seq<Task>, errs: Errors, a: string, b: string)
    requires OrderedAround(tasks, a, b, CarryOn(tasks))
    ensures OrderedAround(tasks, a, b, SucceededTasks(PlanOf(tasks), errs) * CarryOn(tasks))
  {
    var path :| Chain(tasks, path) && |path| > 1 && path[0] == a && path[|path| - 1] == b && FreeOf(path, CarryOn(tasks));
    assert FreeOf(path, SucceededTasks(PlanOf(tasks), errs) * CarryOn(tasks));
  }

  lemma ErrorIsNoSuccess(p: Plan, errs: Errors, n: string)
    requires n in errs
    ensures n !in SucceededTasks(p, errs)
  {
    if n in SucceededTasks(p, errs) {
      MeaningEquation(p, errs, n);
      assert false;
    }
  }

  /** A chain free of carriers that succeeded is free of carriers altogether. */
  lemma FreeMeansBare(tasks: seq<Task>, path: seq<string>, errs: Errors)
    requires UniqueNames(tasks) && Closed(PlanOf(tasks)) && Acyclic(PlanOf(tasks))
    requires Chain(tasks, path) && |path| > 1 && errs.Keys == {path[0], path[|path| - 1]}
    requires FreeOf(path, SucceededTasks(PlanOf(tasks), errs) * CarryOn(tasks))
    ensures FreeOf(path, CarryOn(tasks))
  {
    forall i | 0 < i < |path| - 1 ensures path[i] !in CarryOn(tasks) {
      if path[i] in CarryOn(tasks) { CarrierSucceeds(tasks, path, i, errs); }
    }
  }

  lemma BothFail(tasks: seq<Task>, a: string, b: string)
    requires UniqueNames(tasks) && "" !in Names(tasks) && Closed(PlanOf(tasks)) && Acyclic(PlanOf(tasks))
    requires OutlastsRetry(tasks, a, b)
    ensures OrderedAround(tasks, a, b, CarryOn(tasks))
  {
    var errs: Errors := map[a := "boom", b := "boom"];
    var done := SucceededTasks(PlanOf(tasks), errs);
    ErrorIsNoSuccess(PlanOf(tasks), errs, a);
    ErrorIsNoSuccess(PlanOf(tasks), errs, b);
    RetryFailedKeepsOrdering(tasks, errs, a, b);
    var path :| Chain(tasks, path) && |path| > 1 && path[0] == a && path[|path| - 1] == b && FreeOf(path, done * CarryOn(tasks));
    FreeMeansBare(tasks, path, errs);
  }

  /** "z" waits for "x" through "y", and "y" carries on when "x" fails. */
  function CarryOnTasks(): seq<Task> {
    [Task("x", [], false), Task("y", ["x"], true), Task("z", ["y"], false)]
  }

  lemma CarryOnPlan()
    ensures PlanOf(CarryOnTasks()) == Plan(map["x" := [], "y" := ["x"], "z" := ["y"]], {"y"})
  {
    var x, y, z := Task("x", [], false), Task("y", ["x"], true), Task("z", ["y"], false);
    assert CarryOnTasks()[..2] == [x, y] && [x, y][..1] == [x] && [x][..0] == [];
    assert DepsOf([x]) == map["x" := []];
    assert DepsOf([x, y]) == map["x" := [], "y" := ["x"]];
    assert y in CarryOnTasks();
  }

  lemma CarryOnRun(p: Plan, errs: Errors)
    requires p == Plan(map["x" := [], "y" := ["x"], "z" := ["y"]], {"y"})
    requires errs == map["x" := "boom", "z" := "boom"]
    ensures SucceededTasks(p, errs) == {"y"}
  {
    MeaningEquation(p, errs, "x");
    MeaningEquation(p, errs, "y");
    assert Meaning(p, errs, "y") == Ran(false);
    FirstFailedIs(["y"], FailedTasks(p, errs));
    MeaningEquation(p, errs, "z");
  }

  lemma CarryOnChain()
    ensures DependsTransitively(CarryOnTasks(), "z", "x")
  {
    var tasks := CarryOnTasks();
    assert tasks[1] in tasks && tasks[2] in tasks;
    assert DependsOn(tasks, "y", "x") && DependsOn(tasks, "z", "y");
    assert Chain(tasks, ["z", "y", "x"]);
  }

  lemma CarryOnChainBroken(tasks: seq<Task>)
    requires forall b :: DependsOn(tasks, "z", b) ==> b == "y"
    ensures !OrderedAround(tasks, "z", "x", {"y"})
  {
    forall path | Chain(tasks, path) && |path| > 1 && path[0] == "z" && path[|path| - 1] == "x"
      ensures !FreeOf(path, {"y"})
    {
      assert DependsOn(tasks, path[0], path[0 + 1]);
      assert path[1] == "y";
    }
  }

  /** An instance in which the ordering is lost: when "x" fails and "y" carries on and succeeds, retry-failed drops
    * "y", and nothing makes "z" wait for "x" any more. */
  lemma CarryOnLosesOrdering()
    ensures var errs := map["x" := "boom", "z" := "boom"];
            var done := SucceededTasks(PlanOf(CarryOnTasks()), errs);
            && "x" !in done && "z" !in done
            && DependsTransitively(CarryOnTasks(), "z", "x")
            && !DependsTransitively(Strip(CarryOnTasks(), done), "z", "x")
  {
    var tasks, errs := CarryOnTasks(), map["x" := "boom", "z" := "boom"];
    CarryOnPlan();
    CarryOnRun(PlanOf(tasks), errs);
    CarryOnChain();
    forall b | DependsOn(tasks, "z", b) ensures b == "y" {
      var t :| t in tasks && t.name == "z" && b in t.depends;
    }
    CarryOnChainBroken(tasks);
    StripOrderIff(tasks, {"y"}, "z", "x");
  }

  // ----- Starting from one task -----

  lemma {:induction false} DroppedSucceed(p: Plan, errs: Errors, drop: set<string>, n: string, k: nat)
    requires n in drop && !Fate(p, errs, n, k).Unreached?
    requires forall a, b :: a in drop && a in p.deps && b in p.deps[a] ==> b in drop
    requires forall d :: d in drop ==> d !in errs
    ensures Fate(p, errs, n, k) == Ran(false)
    decreases k
  {
    var failed := FailedWithin(p, errs, p.deps[n], k - 1);
    forall d | d in p.deps[n] ensures d !in failed {
      DroppedSucceed(p, errs, drop, d, k - 1);
    }
    FirstFailedIs(p.deps[n], failed);
  }

  lemma DroppedDependOnDropped(tasks: seq<Task>, head: string, drop: set<string>, a: string, b: string)
    requires DropsOthers(tasks, head, drop)
    requires a in drop && a in DepsOf(tasks) && b in DepsOf(tasks)[a]
    ensures b in drop
  {
    DepsKeys(tasks);
    var t :| t in tasks && t.name == a && t.depends == DepsOf(tasks)[a];
    assert DependsOn(tasks, a, b) && b in Mentioned(tasks);
    FromHereKeepsDependents(tasks, head, drop);
  }

  lemma OthersDoNotFail(tasks: seq<Task>, head: string, drop: set<string>, errs: Errors, d: string)
    requires DropsOthers(tasks, head, drop) && d in drop
    ensures !Meaning(PlanOf(tasks), Reusing(drop, errs), d).Failed()
  {
    var p, all := PlanOf(tasks), Reusing(drop, errs);
    if !Meaning(p, all, d).Unreached? {
      forall a, b | a in drop && a in p.deps && b in p.deps[a] ensures b in drop {
        DroppedDependOnDropped(tasks, head, drop, a, b);
      }
      DroppedSucceed(p, all, drop, d, |p.deps|);
    }
  }

  /** A run triggered from `head` means, for `head` and everything that depends on it, what the whole schedule means
    * with the bodies of everything else returning no error, exactly when the whole schedule reaches every dropped task
    * on which a task depends that the triggered run reaches: no cycle and no missing name is cut off that would have
    * held back a task that now runs. */
  lemma FromHereMeaningIff(tasks: seq<Task>, head: string, drop: set<string>, errs: Errors)
    requires DropsOthers(tasks, head, drop)
    ensures (forall n :: n in FromHere(tasks, head) ==>
               Meaning(PlanOf(Strip(tasks, drop)), errs, n) == Meaning(PlanOf(tasks), Reusing(drop, errs), n))
       <==> DropsReached(PlanOf(tasks), drop, Reusing(drop, errs), errs)
  {
    var p, all := PlanOf(tasks), Reusing(drop, errs);
    forall d | d in drop ensures !Meaning(p, all, d).Failed() {
      OthersDoNotFail(tasks, head, drop, errs, d);
    }
    PlanOfStrip(tasks, drop);
    MeaningOfStripIff(p, drop, all, errs);
    forall n | n !in drop && n !in FromHere(tasks, head)
      ensures Meaning(PlanOf(Strip(tasks, drop)), errs, n) == Meaning(p, all, n)
    {
      DepsKeys(tasks);
      assert n !in Mentioned(tasks);
      assert n !in p.deps && n !in StripPlan(p, drop).deps;
      MeaningEquation(p, all, n);
      MeaningEquation(StripPlan(p, drop), errs, n);
    }
  }

  /** In particular for every schedule without cycles or missing names. */
  lemma FromHereMeaning(tasks: seq<Task>, head: string, drop: set<string>, errs: Errors, n: string)
    requires Closed(PlanOf(tasks)) && Acyclic(PlanOf(tasks))
    requires DropsOthers(tasks, head, drop) && n in FromHere(tasks, head)
    ensures Meaning(PlanOf(Strip(tasks, drop)), errs, n) == Meaning(PlanOf(tasks), Reusing(drop, errs), n)
  {
    var p, all := PlanOf(tasks), Reusing(drop, errs);
    LeftoversIffCycle(p, all);
    forall d | d in p.deps ensures !Meaning(p, all, d).Unreached? {
      assert d !in UnreachedTasks(p, all);
    }
    FromHereMeaningIff(tasks, head, drop, errs);
  }
}
