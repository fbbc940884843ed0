/** Narrowing a schedule's task list: for retry-failed, for retry of one task, and for a trigger that
  * starts from one task. Each drops tasks and strips the depends entries that pointed at them. */
module Narrow {
  import opened Schedule
  import opened Downstream
  import opened Wrappers

  /** A queued job's payload: the run it is for, and its tasks. */
  datatype Payload = Payload(runID: string, tasks: seq<Task>)

  /** `ds` without the entries in `drop`. */
  function Without(ds: seq<string>, drop: set<string>): seq<string> {
    if ds == [] then []
    else if ds[|ds| - 1] in drop then Without(ds[..|ds| - 1], drop)
    else Without(ds[..|ds| - 1], drop) + [ds[|ds| - 1]]
  }

  /** The tasks not named in `drop`, each without the depends entries in `drop`. */
  function Strip(tasks: seq<Task>, drop: set<string>): seq<Task> {
    if tasks == [] then []
    else
      var front, t := Strip(tasks[..|tasks| - 1], drop), tasks[|tasks| - 1];
      if t.name in drop then front else front + [t.(depends := Without(t.depends, drop))]
  }

  /** Every name a task list mentions. */
  function Mentioned(tasks: seq<Task>): set<string> {
    Names(tasks) + set t, d | t in tasks && d in t.depends :: d
  }

  /** Entry by entry, in order, repeats and all. */
  lemma {:induction false} WithoutSplits(a: seq<string>, b: seq<string>, drop: set<string>)
    ensures Without(a + b, drop) == Without(a, drop) + Without(b, drop)
    ensures forall d :: Without([d], drop) == if d in drop then [] else [d]
    decreases |b|
  {
    forall d ensures Without([d], drop) == if d in drop then [] else [d] {
      assert [d][..0] == [];
    }
    if b == [] {
      assert a + b == a;
    } else {
      var last := |b| - 1;
      WithoutSplits(a, b[..last], drop);
      assert (a + b)[..|a| + last] == a + b[..last];
    }
  }

  lemma StripOne(t: Task, drop: set<string>)
    ensures Strip([t], drop) == if t.name in drop then [] else [Task(t.name, Without(t.depends, drop), t.continueOnFailure)]
  {
    assert [t][..0] == [];
  }

  lemma StripLast(front: seq<Task>, t: Task, drop: set<string>)
    ensures Strip(front + [t], drop) == Strip(front, drop) + Strip([t], drop)
  {
    assert (front + [t])[..|front|] == front;
    StripOne(t, drop);
  }

  /** Task by task, in order, repeats and all: a task is dropped, or left with its flag and what is left of its depends
    * (see `StripOne`). */
  lemma StripSplits(a: seq<Task>, b: seq<Task>, drop: set<string>)
    ensures Strip(a + b, drop) == Strip(a, drop) + Strip(b, drop)
  {
    var f, one := (s: seq<Task>) => Strip(s, drop), (t: Task) => Strip([t], drop);
    forall front, t ensures f(front + [t]) == f(front) + one(t) {
      StripLast(front, t, drop);
    }
    Additive(f, one, a, b);
  }

  /** The names of the tasks that have one and are not kept, in order, repeats and all. */
  function DroppedNames(tasks: seq<Task>, keep: set<string>): seq<string> {
    if tasks == [] then []
    else
      var last := |tasks| - 1;
      DroppedNames(tasks[..last], keep)
      + if tasks[last].name == "" || tasks[last].name in keep then [] else [tasks[last].name]
  }

  lemma DroppedLast(front: seq<Task>, t: Task, keep: set<string>)
    ensures DroppedNames(front + [t], keep) ==
              DroppedNames(front, keep) + if t.name == "" || t.name in keep then [] else [t.name]
  {
    assert (front + [t])[..|front|] == front;
  }

  /** Task by task, in order. */
  lemma DroppedSplit(a: seq<Task>, b: seq<Task>, keep: set<string>)
    ensures DroppedNames(a + b, keep) == DroppedNames(a, keep) + DroppedNames(b, keep)
  {
    var f := (s: seq<Task>) => DroppedNames(s, keep);
    var one := (t: Task) => if t.name == "" || t.name in keep then [] else [t.name];
    forall front, t ensures f(front + [t]) == f(front) + one(t) {
      DroppedLast(front, t, keep);
    }
    Additive(f, one, a, b);
  }

  // ----- The three loops -----

  /** The decoded half of `filterScheduleTasks`. */
  method FilterScheduleTasks(payload: Payload, skip: set<string>, newRunID: string) returns (narrowed: Payload)
    ensures narrowed == Payload(newRunID, Strip(payload.tasks, skip))
  {
    var tasks, kept := payload.tasks, [];
    for i := 0 to |tasks|
      invariant kept == Strip(tasks[..i], skip)
    {
      assert tasks[..i + 1][..i] == tasks[..i];
      var t := tasks[i];
      if t.name !in skip {
        var filtered := FilterDepends(t.depends, skip);
        kept := kept + [t.(depends := filtered)];
      }
    }
    assert tasks[..|tasks|] == tasks;
    narrowed := Payload(newRunID, kept);
  }

  method FilterDepends(ds: seq<string>, skip: set<string>) returns (filtered: seq<string>)
    ensures filtered == Without(ds, skip)
  {
    filtered := [];
    for i := 0 to |ds|
      invariant filtered == Without(ds[..i], skip)
    {
      assert ds[..i + 1][..i] == ds[..i];
      if ds[i] !in skip {
        filtered := filtered + [ds[i]];
      }
    }
    assert ds[..|ds|] == ds;
  }

  /** The names to skip so that only `keep` is left, and the same names as listed to the caller. */
  method BuildSkipFromKeep(tasks: seq<Task>, keep: set<string>) returns (skip: set<string>, dropped: seq<string>)
    ensures skip == Names(tasks) - keep - {""}
    ensures dropped == DroppedNames(tasks, keep)
    ensures forall n :: n in dropped <==> n in skip
    ensures UniqueNames(tasks) ==> NoRepeats(dropped)
  {
    skip, dropped := {}, [];
    for i := 0 to |tasks|
      invariant skip == Names(tasks[..i]) - keep - {""}
      invariant dropped == DroppedNames(tasks[..i], keep)
      invariant forall n :: n in dropped <==> n in skip
      invariant UniqueNames(tasks) ==> NoRepeats(dropped)
    {
      assert tasks[..i + 1] == tasks[..i] + [tasks[i]];
      assert tasks[..i + 1][..i] == tasks[..i];
      var name := tasks[i].name;
      if name != "" && name !in keep {
        skip := skip + {name};
        dropped := dropped + [name];
      }
    }
    assert tasks[..|tasks|] == tasks;
  }

  /** A task and everything that depends on it. */
  ghost function FromHere(tasks: seq<Task>, head: string): iset<string> {
    iset n | n == head || DependsTransitively(tasks, n, head)
  }

  /** The inner loop of `TriggerSubgraph`: the entries that are kept. */
  method KeepDepends(ds: seq<string>, keep: set<string>, ghost drop: set<string>) returns (filtered: seq<string>)
    requires forall d :: d in ds ==> (d in keep <==> d !in drop)
    ensures filtered == Without(ds, drop)
  {
    filtered := [];
    for i := 0 to |ds|
      invariant filtered == Without(ds[..i], drop)
    {
      assert ds[..i + 1][..i] == ds[..i];
      if ds[i] in keep {
        filtered := filtered + [ds[i]];
      }
    }
    assert ds[..|ds|] == ds;
  }

  /** The payload of a trigger that starts from `head`: names and depends entries outside the kept set go. */
  method TriggerSubgraph(tasks: seq<Task>, head: string) returns (sub: seq<Task>, keep: set<string>)
    ensures forall n :: n in keep <==> n in FromHere(tasks, head)
    ensures sub == Strip(tasks, Mentioned(tasks) - keep)
  {
    var below := DownstreamTasks(tasks, head);
    keep := {head} + set n | n in below;
    sub := KeepTasks(tasks, keep);
  }

  /** The outer loop of `TriggerSubgraph`. */
  method KeepTasks(tasks: seq<Task>, keep: set<string>) returns (sub: seq<Task>)
    ensures sub == Strip(tasks, Mentioned(tasks) - keep)
  {
    ghost var drop := Mentioned(tasks) - keep;
    sub := [];
    for i := 0 to |tasks|
      invariant sub == Strip(tasks[..i], drop)
    {
      assert tasks[..i + 1][..i] == tasks[..i];
      var t := tasks[i];
      assert t in tasks;
      if t.name in keep {
        var filtered := KeepDepends(t.depends, keep, drop);
        sub := sub + [t.(depends := filtered)];
      }
    }
    assert tasks[..|tasks|] == tasks;
  }

  // ----- What is left after stripping -----

  lemma {:induction false} WithoutHas(ds: seq<string>, drop: set<string>)
    ensures forall d :: d in Without(ds, drop) <==> d in ds && d !in drop
  {
    if ds != [] {
      WithoutHas(ds[..|ds| - 1], drop);
      assert ds == ds[..|ds| - 1] + [ds[|ds| - 1]];
    }
  }

  lemma NamesOfAppend(tasks: seq<Task>, t: Task)
    ensures Names(tasks + [t]) == Names(tasks) + {t.name}
    ensures UniqueNames(tasks + [t]) <==> UniqueNames(tasks) && t.name !in Names(tasks)
  {
    var longer := tasks + [t];
    assert forall u :: u in longer <==> u in tasks || u == t;
    if UniqueNames(longer) {
      forall i, j | 0 <= i < j < |tasks| ensures tasks[i].name != tasks[j].name {
        assert longer[i].name != longer[j].name;
      }
      forall u | u in tasks ensures u.name != t.name {
        var i :| 0 <= i < |tasks| && tasks[i] == u;
        assert longer[i].name != longer[|tasks|].name;
      }
    }
    if UniqueNames(tasks) && t.name !in Names(tasks) {
      forall i, j | 0 <= i < j < |longer| ensures longer[i].name != longer[j].name {
        assert longer[i] in tasks;
      }
    }
  }

  lemma {:induction false} StripNames(tasks: seq<Task>, drop: set<string>)
    ensures Names(Strip(tasks, drop)) == Names(tasks) - drop
    ensures UniqueNames(tasks) ==> UniqueNames(Strip(tasks, drop))
  {
    if tasks != [] {
      var front, t := tasks[..|tasks| - 1], tasks[|tasks| - 1];
      StripNames(front, drop);
      assert tasks == front + [t];
      NamesOfAppend(front, t);
      if t.name !in drop {
        NamesOfAppend(Strip(front, drop), t.(depends := Without(t.depends, drop)));
      }
    }
  }

  /** The edges left are those between names that are both left. */
  lemma {:induction false} StripEdges(tasks: seq<Task>, drop: set<string>, a: string, b: string)
    ensures DependsOn(Strip(tasks, drop), a, b) <==> DependsOn(tasks, a, b) && a !in drop && b !in drop
  {
    if tasks != [] {
      var front, t := tasks[..|tasks| - 1], tasks[|tasks| - 1];
      var left := t.(depends := Without(t.depends, drop));
      StripEdges(front, drop, a, b);
      WithoutHas(t.depends, drop);
      assert tasks == front + [t];
      assert DependsOn(tasks, a, b) <==> DependsOn(front, a, b) || (t.name == a && b in t.depends);
      if t.name !in drop {
        var stripped := Strip(front, drop);
        assert Strip(tasks, drop) == stripped + [left];
        EdgesOfAppend(stripped, left, a, b);
      }
    }
  }

  lemma EdgesOfAppend(tasks: seq<Task>, t: Task, a: string, b: string)
    ensures DependsOn(tasks + [t], a, b) <==> DependsOn(tasks, a, b) || (t.name == a && b in t.depends)
  {
    if u :| u in tasks && u.name == a && b in u.depends { assert u in tasks + [t]; }
    if t.name == a && b in t.depends { assert t in tasks + [t]; }
  }

  /** Whoever depends on something that is left is left too. */
  ghost predicate KeepsDependents(tasks: seq<Task>, drop: set<string>) {
    forall a, b :: DependsOn(tasks, a, b) && b !in drop ==> a !in drop
  }

  lemma {:induction false} ChainStaysLeft(tasks: seq<Task>, drop: set<string>, path: seq<string>, i: nat)
    requires KeepsDependents(tasks, drop) && Chain(tasks, path) && i < |path| && path[|path| - 1] !in drop
    ensures path[i] !in drop
    decreases |path| - i
  {
    if i < |path| - 1 {
      ChainStaysLeft(tasks, drop, path, i + 1);
      assert DependsOn(tasks, path[i], path[i + 1]);
    }
  }

  /** Nothing strictly between the ends of `path` is in `apart`. */
  ghost predicate FreeOf(path: seq<string>, apart: set<string>) {
    forall i :: 0 < i < |path| - 1 ==> path[i] !in apart
  }

  /** `a` depends on `b` directly, or through others none of which is in `apart`. */
  ghost predicate OrderedAround(tasks: seq<Task>, a: string, b: string, apart: set<string>) {
    exists path :: Chain(tasks, path) && |path| > 1 && path[0] == a && path[|path| - 1] == b && FreeOf(path, apart)
  }

  /** Narrowing leaves exactly the orderings that do not rest on a dropped task. */
  lemma StripOrderIff(tasks: seq<Task>, drop: set<string>, a: string, b: string)
    requires a !in drop && b !in drop
    ensures DependsTransitively(Strip(tasks, drop), a, b) <==> OrderedAround(tasks, a, b, drop)
  {
    var sub := Strip(tasks, drop);
    if path :| Chain(sub, path) && |path| > 1 && path[0] == a && path[|path| - 1] == b {
      forall i | 0 <= i < |path| - 1 ensures DependsOn(tasks, path[i], path[i + 1]) && path[i] !in drop {
        StripEdges(tasks, drop, path[i], path[i + 1]);
      }
      assert Chain(tasks, path) && FreeOf(path, drop);
    }
    if path :| Chain(tasks, path) && |path| > 1 && path[0] == a && path[|path| - 1] == b && FreeOf(path, drop) {
      forall i | 0 <= i < |path| - 1 ensures DependsOn(sub, path[i], path[i + 1]) {
        assert path[i] !in drop && path[i + 1] !in drop;
        StripEdges(tasks, drop, path[i], path[i + 1]);
      }
      assert Chain(sub, path);
    }
  }

  /** Narrowing keeps exactly the original transitive ordering among what is left when whoever depends on something
    * left is left too: what lies between two tasks that are left is then left as well. */
  lemma OrderingKept(tasks: seq<Task>, drop: set<string>, a: string, b: string)
    requires KeepsDependents(tasks, drop) && a !in drop && b !in drop
    ensures DependsTransitively(Strip(tasks, drop), a, b) <==> DependsTransitively(tasks, a, b)
  {
    StripOrderIff(tasks, drop, a, b);
    if path :| Chain(tasks, path) && |path| > 1 && path[0] == a && path[|path| - 1] == b {
      forall i | 0 < i < |path| - 1 ensures path[i] !in drop {
        ChainStaysLeft(tasks, drop, path, i);
      }
      assert FreeOf(path, drop);
    }
  }

  // ----- Starting from one task -----

  /** What a trigger from `head` drops. */
  ghost predicate DropsOthers(tasks: seq<Task>, head: string, drop: set<string>) {
    forall n :: n in drop <==> n in Mentioned(tasks) && n !in FromHere(tasks, head)
  }

  lemma FromHereKeepsDependents(tasks: seq<Task>, head: string, drop: set<string>)
    requires DropsOthers(tasks, head, drop)
    ensures KeepsDependents(tasks, drop)
  {
    forall a, b | DependsOn(tasks, a, b) && b !in drop ensures a !in drop {
      assert b in Mentioned(tasks) by { var t :| t in tasks && t.name == a && b in t.depends; }
      DirectlyThenOn(tasks, a, b, head);
    }
  }

  /** Narrowed to `head` and its dependents, no depends entry points outside, and `head` is the one entry
    * point, unless it depends on itself: then there is none. */
  lemma EntryPoint(tasks: seq<Task>, head: string, drop: set<string>, t: Task)
    requires UniqueNames(tasks) && DropsOthers(tasks, head, drop) && t in Strip(tasks, drop)
    ensures forall d :: d in t.depends ==> d in FromHere(tasks, head)
    ensures t.depends == [] <==> t.name == head && !DependsTransitively(tasks, head, head)
  {
    var sub := Strip(tasks, drop);
    StripNames(tasks, drop);
    assert t.name in Names(sub);
    forall d | d in t.depends ensures d in FromHere(tasks, head) {
      assert DependsOn(sub, t.name, d);
      StripEdges(tasks, drop, t.name, d);
      assert d in Mentioned(tasks) by { var u :| u in tasks && u.name == t.name && d in u.depends; }
    }
    if t.name != head || DependsTransitively(tasks, head, head) {
      var d := FirstStep(tasks, t.name, head);
      StripEdges(tasks, drop, t.name, d);
      var u :| u in sub && u.name == t.name && d in u.depends;
      assert u == t;
    } else if t.depends != [] {
      var d := t.depends[0];
      assert DependsOn(sub, head, d);
      StripEdges(tasks, drop, head, d);
      DirectlyThenOn(tasks, head, d, head);
    }
  }

  // ----- Skip lists and keep lists -----

  lemma {:induction false} WithoutSame(ds: seq<string>, a: set<string>, b: set<string>)
    requires a <= b
    ensures |Without(ds, b)| <= |Without(ds, a)|
    ensures Without(ds, a) == Without(ds, b) <==> forall d :: d in ds ==> (d in a <==> d in b)
  {
    if ds != [] {
      var front, d := ds[..|ds| - 1], ds[|ds| - 1];
      WithoutSame(front, a, b);
      assert ds == front + [d];
      if d !in b {
        var wa, wb := Without(front, a), Without(front, b);
        if wa + [d] == wb + [d] {
          assert wa == (wa + [d])[..|wa|] && wb == (wb + [d])[..|wb|];
        }
      }
      assert (forall e :: e in ds ==> (e in a <==> e in b))
        <==> (forall e :: e in front ==> (e in a <==> e in b)) && (d in a <==> d in b);
    }
  }

  ghost predicate SameEffect(t: Task, a: set<string>, b: set<string>) {
    && (t.name in a <==> t.name in b)
    && (t.name !in a ==> forall d :: d in t.depends ==> (d in a <==> d in b))
  }

  lemma {:induction false} StripSame(tasks: seq<Task>, a: set<string>, b: set<string>)
    requires a <= b
    ensures |Strip(tasks, b)| <= |Strip(tasks, a)|
    ensures Strip(tasks, a) == Strip(tasks, b) <==> forall t :: t in tasks ==> SameEffect(t, a, b)
  {
    if tasks != [] {
      var front, t := tasks[..|tasks| - 1], tasks[|tasks| - 1];
      StripSame(front, a, b);
      WithoutSame(t.depends, a, b);
      assert tasks == front + [t];
      assert (forall u :: u in tasks ==> SameEffect(u, a, b))
        <==> (forall u :: u in front ==> SameEffect(u, a, b)) && SameEffect(t, a, b);
      var sa, sb := Strip(front, a), Strip(front, b);
      if t.name !in b {
        var ta, tb := t.(depends := Without(t.depends, a)), t.(depends := Without(t.depends, b));
        assert Strip(tasks, a) == sa + [ta] && Strip(tasks, b) == sb + [tb];
        if sa + [ta] == sb + [tb] {
          assert sa == (sa + [ta])[..|sa|] && sb == (sb + [tb])[..|sb|];
          assert ta == (sa + [ta])[|sa|] && tb == (sb + [tb])[|sb|];
        }
      }
    }
  }

  /** Retry of one task (a skip list built from a keep list) and trigger-from (the keep list itself) give the
    * same narrowed tasks exactly when no task without a name is outside the keep list, and every depends
    * entry of a kept task is kept or names a task. */
  lemma SkipListIffKeepList(tasks: seq<Task>, keep: set<string>)
    ensures Strip(tasks, Names(tasks) - keep - {""}) == Strip(tasks, Mentioned(tasks) - keep)
       <==> && ("" in Names(tasks) ==> "" in keep)
            && forall t, d :: t in tasks && t.name in keep && d in t.depends ==> d in keep || (d in Names(tasks) && d != "")
  {
    var a, b := Names(tasks) - keep - {""}, Mentioned(tasks) - keep;
    StripSame(tasks, a, b);
    forall t | t in tasks ensures t.name in Mentioned(tasks) {
    }
    forall t, d | t in tasks && d in t.depends ensures d in Mentioned(tasks) {
    }
    if forall t :: t in tasks ==> SameEffect(t, a, b) {
      forall t, d | t in tasks && t.name in keep && d in t.depends ensures d in keep || (d in Names(tasks) && d != "") {
        assert SameEffect(t, a, b);
      }
      if "" in Names(tasks) {
        var t :| t in tasks && t.name == "";
        assert SameEffect(t, a, b);
      }
    }
  }
}
