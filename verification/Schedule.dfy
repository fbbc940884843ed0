/** A schedule's task list, the plan the walker is given for it, and its dependency chains. */
module Schedule {
  import opened Dag

  /** The part of a task the graph sees. An absent depends list and an empty one are the same. */
  datatype Task = Task(name: string, depends: seq<string>, continueOnFailure: bool)

  ghost predicate UniqueNames(tasks: seq<Task>) {
    forall i, j :: 0 <= i < j < |tasks| ==> tasks[i].name != tasks[j].name
  }

  function Names(tasks: seq<Task>): set<string> {
    set t | t in tasks :: t.name
  }

  /** deps[task.Name] = task.Depends, task by task: a later task of the same name wins. */
  function DepsOf(tasks: seq<Task>): map<string, seq<string>> {
    if tasks == [] then map[]
    else
      var last := |tasks| - 1;
      DepsOf(tasks[..last])[tasks[last].name := tasks[last].depends]
  }

  function CarryOn(tasks: seq<Task>): set<string> {
    set t | t in tasks && t.continueOnFailure :: t.name
  }

  function PlanOf(tasks: seq<Task>): Plan {
    Plan(DepsOf(tasks), CarryOn(tasks))
  }

  /** Each name gets the depends list of the last task of that name, and carries on if any task of the name says so. */
  lemma {:induction false} PlanIs(tasks: seq<Task>, i: nat)
    requires i < |tasks| && forall j :: i < j < |tasks| ==> tasks[j].name != tasks[i].name
    ensures tasks[i].name in PlanOf(tasks).deps && PlanOf(tasks).deps[tasks[i].name] == tasks[i].depends
    ensures forall n :: n in PlanOf(tasks).carryOn <==>
              exists j :: (0 <= j < |tasks| && tasks[j].name == n && tasks[j].continueOnFailure)
    decreases |tasks|
  {
    var last := |tasks| - 1;
    if i < last { PlanIs(tasks[..last], i); }
    forall n ensures n in PlanOf(tasks).carryOn <==>
        exists j :: (0 <= j < |tasks| && tasks[j].name == n && tasks[j].continueOnFailure)
    {
      if j :| 0 <= j < |tasks| && tasks[j].name == n && tasks[j].continueOnFailure { assert tasks[j] in tasks; }
    }
  }

  /** The loops of `ExecuteTasks` that prepare the walk. */
  method BuildPlan(tasks: seq<Task>) returns (p: Plan)
    ensures p == PlanOf(tasks)
  {
    var deps, carryOn := map[], {};
    for i := 0 to |tasks|
      invariant deps == DepsOf(tasks[..i]) && carryOn == CarryOn(tasks[..i])
    {
      var task := tasks[i];
      assert tasks[..i + 1] == tasks[..i] + [task];
      deps := deps[task.name := task.depends];
      if task.continueOnFailure {
        carryOn := carryOn + {task.name};
      }
    }
    assert tasks[..|tasks|] == tasks;
    p := Plan(deps, carryOn);
  }

  lemma {:induction false} DepsKeys(tasks: seq<Task>)
    ensures DepsOf(tasks).Keys == Names(tasks)
    ensures forall n :: n in DepsOf(tasks) ==>
              exists t :: t in tasks && t.name == n && t.depends == DepsOf(tasks)[n]
  {
    if tasks != [] {
      var front, t := tasks[..|tasks| - 1], tasks[|tasks| - 1];
      DepsKeys(front);
      assert tasks == front + [t];
      forall n | n in DepsOf(tasks)
        ensures exists u :: u in tasks && u.name == n && u.depends == DepsOf(tasks)[n]
      {
        if n == t.name {
          assert t in tasks;
        } else {
          var u :| u in front && u.name == n && u.depends == DepsOf(front)[n];
          assert u in tasks;
        }
      }
    }
  }

  /** Some task named `a` lists `b` in its depends. */
  ghost predicate DependsOn(tasks: seq<Task>, a: string, b: string) {
    exists t :: t in tasks && t.name == a && b in t.depends
  }

  /** Each name depends on the next. */
  ghost predicate Chain(tasks: seq<Task>, path: seq<string>) {
    && |path| > 0
    && forall i :: 0 <= i < |path| - 1 ==> DependsOn(tasks, path[i], path[i + 1])
  }

  /** `a` depends on `b`, directly or through others. */
  ghost predicate DependsTransitively(tasks: seq<Task>, a: string, b: string) {
    exists path :: Chain(tasks, path) && |path| > 1 && path[0] == a && path[|path| - 1] == b
  }

  lemma DirectlyThenOn(tasks: seq<Task>, a: string, b: string, c: string)
    requires DependsOn(tasks, a, b) && (b == c || DependsTransitively(tasks, b, c))
    ensures DependsTransitively(tasks, a, c)
  {
    var path := [b];
    if b != c {
      path :| Chain(tasks, path) && |path| > 1 && path[0] == b && path[|path| - 1] == c;
    }
    var longer := [a] + path;
    forall i | 0 <= i < |longer| - 1 ensures DependsOn(tasks, longer[i], longer[i + 1]) {
      if i > 0 { assert DependsOn(tasks, path[i - 1], path[i - 1 + 1]); }
    }
    assert Chain(tasks, longer);
  }

  lemma FirstStep(tasks: seq<Task>, a: string, c: string) returns (b: string)
    requires DependsTransitively(tasks, a, c)
    ensures DependsOn(tasks, a, b) && (b == c || DependsTransitively(tasks, b, c))
  {
    var path :| Chain(tasks, path) && |path| > 1 && path[0] == a && path[|path| - 1] == c;
    b := path[1];
    assert DependsOn(tasks, path[0], path[0 + 1]);
    if |path| > 2 {
      var rest := path[1..];
      forall i | 0 <= i < |rest| - 1 ensures DependsOn(tasks, rest[i], rest[i + 1]) {
        assert DependsOn(tasks, path[i + 1], path[i + 1 + 1]);
      }
      assert Chain(tasks, rest);
    }
  }

  /** With unique names, chains through the list are paths through the plan. */
  lemma ChainIsFollows(tasks: seq<Task>, path: seq<string>)
    requires UniqueNames(tasks)
    ensures Chain(tasks, path) <==> Follows(PlanOf(tasks), path)
  {
    var p := PlanOf(tasks);
    if Chain(tasks, path) {
      forall i | 0 <= i < |path| - 1 ensures path[i] in p.deps && path[i + 1] in p.deps[path[i]] {
        DependsOnIsEntry(tasks, path[i], path[i + 1]);
      }
    }
    if Follows(p, path) {
      forall i | 0 <= i < |path| - 1 ensures DependsOn(tasks, path[i], path[i + 1]) {
        DependsOnIsEntry(tasks, path[i], path[i + 1]);
      }
    }
  }

  lemma DependsOnIsEntry(tasks: seq<Task>, a: string, b: string)
    requires UniqueNames(tasks)
    ensures DependsOn(tasks, a, b) <==> a in DepsOf(tasks) && b in DepsOf(tasks)[a]
  {
    DepsKeys(tasks);
    if a in DepsOf(tasks) {
      var t :| t in tasks && t.name == a && t.depends == DepsOf(tasks)[a];
      assert forall u :: u in tasks && u.name == a ==> u == t;
    }
  }
}
