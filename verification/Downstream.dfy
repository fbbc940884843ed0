/** `downstreamTasks`: the breadth-first search for everything that depends on a task. */
module Downstream {
  import opened Schedule
  import opened Dag
  import opened Wrappers

  /** Names at most `k` dependents away from `root`. */
  ghost function Within(tasks: seq<Task>, root: string, k: nat): set<string>
    decreases k
  {
    if k == 0 then {root} else OneFurther(tasks, Within(tasks, root, k - 1))
  }

  /** `near`, and every task with a depends entry in it. */
  ghost function OneFurther(tasks: seq<Task>, near: set<string>): set<string> {
    near + set t | t in tasks && exists d :: d in t.depends && d in near :: t.name
  }

  lemma {:induction false} WithinGrows(tasks: seq<Task>, root: string, j: nat, k: nat)
    requires j <= k
    ensures Within(tasks, root, j) <= Within(tasks, root, k)
    decreases k
  {
    if j < k { WithinGrows(tasks, root, j, k - 1); }
  }

  /** Being within some number of dependents is depending on the root. */
  lemma {:induction false} WithinDepends(tasks: seq<Task>, root: string, n: string, k: nat)
    requires n in Within(tasks, root, k)
    ensures n == root || DependsTransitively(tasks, n, root)
    decreases k
  {
    if k > 0 && n !in Within(tasks, root, k - 1) {
      var t :| t in tasks && t.name == n && exists d :: d in t.depends && d in Within(tasks, root, k - 1);
      var d :| d in t.depends && d in Within(tasks, root, k - 1);
      WithinDepends(tasks, root, d, k - 1);
      assert DependsOn(tasks, n, d);
      DirectlyThenOn(tasks, n, d, root);
    } else if k > 0 {
      WithinDepends(tasks, root, n, k - 1);
    }
  }

  lemma {:induction false} DependsWithin(tasks: seq<Task>, path: seq<string>)
    requires Chain(tasks, path)
    ensures path[0] in Within(tasks, path[|path| - 1], |path| - 1)
    decreases |path|
  {
    if |path| > 1 {
      var rest := path[1..];
      assert Chain(tasks, rest) by {
        forall i | 0 <= i < |rest| - 1 ensures DependsOn(tasks, rest[i], rest[i + 1]) {
          assert DependsOn(tasks, path[i + 1], path[i + 1 + 1]);
        }
      }
      DependsWithin(tasks, rest);
      assert DependsOn(tasks, path[0], path[0 + 1]);
      var t :| t in tasks && t.name == path[0] && path[1] in t.depends;
    }
  }

  /** `name`, once for each time `ds` has `d`. */
  function Copies(ds: seq<string>, d: string, name: string): seq<string> {
    if ds == [] then []
    else Copies(ds[..|ds| - 1], d, name) + if ds[|ds| - 1] == d then [name] else []
  }

  /** Who lists `d`, in the order of the tasks, once for each time it does. */
  function ChildrenOf(tasks: seq<Task>, d: string): seq<string> {
    if tasks == [] then []
    else
      var last := |tasks| - 1;
      ChildrenOf(tasks[..last], d) + Copies(tasks[last].depends, d, tasks[last].name)
  }

  lemma {:induction false} CopiesAre(ds: seq<string>, d: string, name: string)
    ensures forall n :: n in Copies(ds, d, name) <==> n == name && d in ds
    ensures |Copies(ds, d, name)| == multiset(ds)[d]
  {
    if ds != [] {
      CopiesAre(ds[..|ds| - 1], d, name);
      assert ds == ds[..|ds| - 1] + [ds[|ds| - 1]];
    }
  }

  lemma {:induction false} ChildrenDepend(tasks: seq<Task>, d: string)
    ensures forall n :: n in ChildrenOf(tasks, d) <==> DependsOn(tasks, n, d)
  {
    if tasks != [] {
      var front, t := tasks[..|tasks| - 1], tasks[|tasks| - 1];
      ChildrenDepend(front, d);
      CopiesAre(t.depends, d, t.name);
      assert tasks == front + [t];
      forall n ensures DependsOn(tasks, n, d) <==> DependsOn(front, n, d) || (n == t.name && d in t.depends) {
        if n == t.name && d in t.depends { assert t in tasks; }
        if u :| u in front && u.name == n && d in u.depends { assert u in tasks; }
      }
    }
  }

  lemma ChildrenLast(front: seq<Task>, t: Task, d: string)
    ensures ChildrenOf(front + [t], d) == ChildrenOf(front, d) + Copies(t.depends, d, t.name)
  {
    assert (front + [t])[..|front|] == front;
  }

  /** Task by task, in order. */
  lemma ChildrenSplit(a: seq<Task>, b: seq<Task>, d: string)
    ensures ChildrenOf(a + b, d) == ChildrenOf(a, d) + ChildrenOf(b, d)
  {
    var f, one := (s: seq<Task>) => ChildrenOf(s, d), (t: Task) => Copies(t.depends, d, t.name);
    forall front, t ensures f(front + [t]) == f(front) + one(t) {
      ChildrenLast(front, t, d);
    }
    Additive(f, one, a, b);
  }

  /** The reversed edges. */
  method Reverse(tasks: seq<Task>) returns (dependents: map<string, seq<string>>)
    ensures forall d :: Lookup(dependents, d) == ChildrenOf(tasks, d)
  {
    dependents := map[];
    for i := 0 to |tasks|
      invariant forall d :: Lookup(dependents, d) == ChildrenOf(tasks[..i], d)
    {
      assert tasks[..i + 1][..i] == tasks[..i];
      dependents := ReverseOne(tasks[i], dependents);
    }
    assert tasks[..|tasks|] == tasks;
  }

  lemma EntryReversed(before: map<string, seq<string>>, dependents: map<string, seq<string>>, t: Task, j: nat, d: string)
    requires j < |t.depends| && Lookup(dependents, d) == Lookup(before, d) + Copies(t.depends[..j], d, t.name)
    ensures Lookup(dependents[t.depends[j] := Lookup(dependents, t.depends[j]) + [t.name]], d)
         == Lookup(before, d) + Copies(t.depends[..j + 1], d, t.name)
  {
    assert t.depends[..j + 1][..j] == t.depends[..j];
  }

  /** The inner loop: one task's entries. */
  method ReverseOne(t: Task, before: map<string, seq<string>>) returns (dependents: map<string, seq<string>>)
    ensures forall d :: Lookup(dependents, d) == Lookup(before, d) + Copies(t.depends, d, t.name)
  {
    dependents := before;
    for j := 0 to |t.depends|
      invariant forall d :: Lookup(dependents, d) == Lookup(before, d) + Copies(t.depends[..j], d, t.name)
    {
      forall d ensures Lookup(dependents[t.depends[j] := Lookup(dependents, t.depends[j]) + [t.name]], d)
                    == Lookup(before, d) + Copies(t.depends[..j + 1], d, t.name)
      {
        EntryReversed(before, dependents, t, j, d);
      }
      var dep := t.depends[j];
      dependents := dependents[dep := Lookup(dependents, dep) + [t.name]];
    }
    assert t.depends[..|t.depends|] == t.depends;
  }

  /** The root and what the first `i` expansions find, in the order found: each expands the next name found, and finds
    * the names of the tasks that list it and were not found before, as they come. */
  function Found(tasks: seq<Task>, root: string, i: nat): seq<string> {
    if i == 0 then [root]
    else
      var before := Found(tasks, root, i - 1);
      if i - 1 < |before| then before + Distinct(ChildrenOf(tasks, before[i - 1]), set n | n in before) else before
  }

  /** Everything the search knows: `order` is the root and what was found, in the order found; the first `i`
    * of them have been expanded. */
  ghost predicate Searched(tasks: seq<Task>, root: string, order: seq<string>, i: nat) {
    && |order| > 0 && order[0] == root && i <= |order|
    && NoRepeats(order)
    && (forall j :: 1 <= j < |order| ==> order[j] in Names(tasks))
    && (forall j, n {:trigger DependsOn(tasks, n, order[j])} :: 0 <= j < i && DependsOn(tasks, n, order[j]) ==> n in order)
  }

  /** The layers of the graph around `root`, as a function of the distance. */
  ghost function Layers(tasks: seq<Task>, root: string): nat -> set<string> {
    (k: nat) => Within(tasks, root, k)
  }

  ghost predicate Growing(layer: nat -> set<string>) {
    forall j: nat, k: nat :: j <= k ==> layer(j) <= layer(k)
  }

  /** `dist[j]` is the first layer `order[j]` is in, and distances never go down along `order`. */
  ghost predicate Distances(layer: nat -> set<string>, order: seq<string>, dist: seq<nat>) {
    && |dist| == |order|
    && (forall j :: 0 <= j < |order| ==> order[j] in layer(dist[j]))
    && (forall j :: 0 <= j < |order| && dist[j] > 0 ==> order[j] !in layer(dist[j] - 1))
    && (forall j, k :: 0 <= j <= k < |dist| ==> dist[j] <= dist[k])
  }

  /** From `i` on, distances are within one of each other, and everything as near as `order[i]` has been found. */
  ghost predicate Frontier(layer: nat -> set<string>, order: seq<string>, dist: seq<nat>, i: nat)
    requires |dist| == |order|
  {
    i < |order| ==>
      && (forall k :: i <= k < |dist| ==> dist[k] <= dist[i] + 1)
      && (forall n :: n in layer(dist[i]) ==> n in order)
  }

  ghost predicate Measured(layer: nat -> set<string>, order: seq<string>, dist: seq<nat>, i: nat) {
    Distances(layer, order, dist) && Frontier(layer, order, dist, i)
  }

  /** When everything within `k` has been found and expanded, everything one further has been found. */
  lemma NextLayer(tasks: seq<Task>, order: seq<string>, near: set<string>)
    requires forall n :: n in near ==> n in order
    requires forall d, n :: d in near && DependsOn(tasks, n, d) ==> n in order
    ensures forall n :: n in OneFurther(tasks, near) ==> n in order
  {
    forall n | n in OneFurther(tasks, near) && n !in near ensures n in order {
      var t :| t in tasks && t.name == n && exists d :: d in t.depends && d in near;
      var d :| d in t.depends && d in near;
      assert DependsOn(tasks, n, d);
    }
  }

  /** What lies within `k`, less far than `order[i]`, comes before it. */
  lemma NearerComesBefore(layer: nat -> set<string>, order: seq<string>, dist: seq<nat>,
                                             i: nat, k: nat, d: string)
    requires Growing(layer) && Distances(layer, order, dist) && i < |order| && k < dist[i]
    requires d in layer(k) && d in order
    ensures exists j :: 0 <= j < i && order[j] == d
  {
    var j :| 0 <= j < |order| && order[j] == d;
  }

  /** One turn of the search is over: on to the next name. */
  lemma Advance(tasks: seq<Task>, layer: nat -> set<string>, order: seq<string>, dist: seq<nat>, i: nat)
    requires Growing(layer) && i < |order| && Measured(layer, order, dist, i)
    requires layer(dist[i] + 1) == OneFurther(tasks, layer(dist[i]))
    requires forall j, n {:trigger DependsOn(tasks, n, order[j])} ::
               0 <= j < i + 1 && DependsOn(tasks, n, order[j]) ==> n in order
    ensures Frontier(layer, order, dist, i + 1)
  {
    if i + 1 < |order| && dist[i + 1] == dist[i] + 1 {
      forall d, n | d in layer(dist[i]) && DependsOn(tasks, n, d) ensures n in order {
        NearerComesBefore(layer, order, dist, i + 1, dist[i], d);
        var j :| 0 <= j < i + 1 && order[j] == d;
        assert DependsOn(tasks, n, order[j]);
      }
      NextLayer(tasks, order, layer(dist[i]));
    }
  }

  lemma OneFurtherAway(tasks: seq<Task>, root: string, d: string, k: nat, child: string)
    requires d in Within(tasks, root, k) && DependsOn(tasks, child, d)
    ensures child in Within(tasks, root, k + 1) && child in Names(tasks)
  {
    var t :| t in tasks && t.name == child && d in t.depends;
  }

  /** When everything found has been expanded, everything that depends on the root has been found. */
  lemma {:induction false} SearchComplete(tasks: seq<Task>, root: string, order: seq<string>, k: nat)
    requires Searched(tasks, root, order, |order|)
    ensures forall n :: n in Within(tasks, root, k) ==> n in order
    decreases k
  {
    if k > 0 {
      SearchComplete(tasks, root, order, k - 1);
      forall n | n in Within(tasks, root, k) && n !in Within(tasks, root, k - 1) ensures n in order {
        var t :| t in tasks && t.name == n && exists d :: d in t.depends && d in Within(tasks, root, k - 1);
        var d :| d in t.depends && d in Within(tasks, root, k - 1);
        var j :| 0 <= j < |order| && order[j] == d;
        assert DependsOn(tasks, n, order[j]);
      }
    }
  }

  lemma FoundFits(tasks: seq<Task>, root: string, order: seq<string>, i: nat)
    requires Searched(tasks, root, order, i)
    ensures |order| <= |Names(tasks) + {root}|
  {
    DistinctWithin(order, Names(tasks) + {root});
  }

  /** `found` is what expanding `order[i]` adds: its dependents not in `order`, once each. */
  ghost predicate Expands(tasks: seq<Task>, order: seq<string>, i: nat, found: seq<string>)
    requires i < |order|
  {
    && NoRepeats(found)
    && (forall n :: n in found ==> n !in order && DependsOn(tasks, n, order[i]))
    && (forall n :: DependsOn(tasks, n, order[i]) ==> n in order || n in found)
  }

  lemma FoundSearched(tasks: seq<Task>, root: string, order: seq<string>, i: nat, found: seq<string>)
    requires Searched(tasks, root, order, i) && i < |order| && NoRepeats(found)
    requires forall n :: n in found ==> n !in order && n in Names(tasks)
    requires forall n :: DependsOn(tasks, n, order[i]) ==> n in order || n in found
    ensures Searched(tasks, root, order + found, i + 1)
  {
    var longer := order + found;
    forall j, k | 0 <= j < k < |longer| ensures longer[j] != longer[k] {
      if j < |order| <= k { assert longer[k] in found && longer[j] in order; }
    }
    forall j | 1 <= j < |longer| ensures longer[j] in Names(tasks) {
      if |order| <= j { assert longer[j] in found; }
    }
    forall j, n | 0 <= j < i + 1 && DependsOn(tasks, n, longer[j]) ensures n in longer {
      assert DependsOn(tasks, n, order[j]);
    }
  }

  lemma FoundDistances(layer: nat -> set<string>, order: seq<string>, dist: seq<nat>, i: nat,
                                          found: seq<string>, dist': seq<nat>)
    requires Measured(layer, order, dist, i) && i < |order|
    requires forall n :: n in found ==> n in layer(dist[i] + 1) && n !in layer(dist[i])
    requires dist' == dist + seq(|found|, _ => dist[i] + 1)
    ensures Measured(layer, order + found, dist', i)
  {
    var longer := order + found;
    forall j | 0 <= j < |longer|
      ensures longer[j] in layer(dist'[j])
      ensures dist'[j] > 0 ==> longer[j] !in layer(dist'[j] - 1)
    {
      if j >= |order| {
        assert longer[j] == found[j - |order|] && found[j - |order|] in found;
        assert dist'[j] == dist[i] + 1;
      } else {
        assert longer[j] == order[j] && dist'[j] == dist[j];
      }
    }
    forall j, k | 0 <= j <= k < |dist'| ensures dist'[j] <= dist'[k] {
      assert dist'[i] == dist[i];
    }
  }

  lemma FoundMeasured(tasks: seq<Task>, layer: nat -> set<string>, order: seq<string>, dist: seq<nat>,
                                         i: nat, found: seq<string>) returns (dist': seq<nat>)
    requires Growing(layer) && Measured(layer, order, dist, i) && i < |order|
    requires layer(dist[i] + 1) == OneFurther(tasks, layer(dist[i]))
    requires forall n :: n in found ==> n in layer(dist[i] + 1) && n !in order
    requires forall j, n {:trigger DependsOn(tasks, n, (order + found)[j])} ::
               0 <= j < i + 1 && DependsOn(tasks, n, (order + found)[j]) ==> n in order + found
    ensures Measured(layer, order + found, dist', i + 1)
  {
    dist' := dist + seq(|found|, _ => dist[i] + 1);
    FoundDistances(layer, order, dist, i, found, dist');
    Advance(tasks, layer, order + found, dist', i);
  }

  lemma LayersGrow(tasks: seq<Task>, root: string)
    ensures Growing(Layers(tasks, root))
  {
    forall j: nat, k: nat | j <= k ensures Layers(tasks, root)(j) <= Layers(tasks, root)(k) {
      WithinGrows(tasks, root, j, k);
    }
  }

  lemma ExpandKeeps(tasks: seq<Task>, root: string, order: seq<string>, dist: seq<nat>, i: nat,
                                       found: seq<string>) returns (dist': seq<nat>)
    requires Searched(tasks, root, order, i) && Measured(Layers(tasks, root), order, dist, i) && i < |order|
    requires Expands(tasks, order, i, found)
    ensures Searched(tasks, root, order + found, i + 1) && Measured(Layers(tasks, root), order + found, dist', i + 1)
  {
    var layer := Layers(tasks, root);
    forall n | n in found ensures n in layer(dist[i] + 1) && n in Names(tasks) {
      OneFurtherAway(tasks, root, order[i], dist[i], n);
    }
    FoundSearched(tasks, root, order, i, found);
    LayersGrow(tasks, root);
    dist' := FoundMeasured(tasks, layer, order, dist, i, found);
  }

  /** The inner loop: the dependents of one task that were not seen before. */
  method Expand(tasks: seq<Task>, children: seq<string>, seen: set<string>, ghost order: seq<string>, ghost i: nat)
      returns (seen': set<string>, found: seq<string>)
    requires i < |order|
    requires forall n :: n in seen <==> n in order
    requires forall n :: n in children <==> DependsOn(tasks, n, order[i])
    ensures found == Distinct(children, seen)
    ensures forall n :: n in seen' <==> n in order || n in found
    ensures Expands(tasks, order, i, found)
  {
    seen', found := seen, [];
    for j := 0 to |children|
      invariant forall n :: n in seen' <==> n in order || n in found
      invariant found == Distinct(children[..j], seen)
    {
      assert children[..j + 1][..j] == children[..j];
      if children[j] !in seen' {
        found := found + [children[j]];
        seen' := seen' + {children[j]};
      }
    }
    assert children[..|children|] == children;
    DistinctAre(children, seen);
  }

  ghost predicate Known(tasks: seq<Task>, root: string, order: seq<string>, dist: seq<nat>, i: nat) {
    Searched(tasks, root, order, i) && Measured(Layers(tasks, root), order, dist, i)
  }

  lemma Starts(tasks: seq<Task>, root: string)
    ensures Known(tasks, root, [root], [0], 0)
  {
  }

  lemma QueueMoves(root: string, out: seq<string>, order: seq<string>, i: nat, found: seq<string>)
    requires order == [root] + out && i < |order|
    ensures order[i..][1..] + found == (order + found)[i + 1..]
    ensures order + found == [root] + (out + found)
  {
  }

  lemma Progress(tasks: seq<Task>, root: string, order: seq<string>, dist: seq<nat>, i: nat, found: seq<string>)
      returns (dist': seq<nat>)
    requires Known(tasks, root, order, dist, i) && i < |order| && Expands(tasks, order, i, found)
    ensures Known(tasks, root, order + found, dist', i + 1)
    ensures i < |Names(tasks) + {root}|
  {
    FoundFits(tasks, root, order, i);
    dist' := ExpandKeeps(tasks, root, order, dist, i, found);
  }

  /** Everything that depends on `root`, nearest first. */
  method DownstreamTasks(tasks: seq<Task>, root: string) returns (out: seq<string>)
    ensures NoRepeats(out)
    ensures forall n :: n in out <==> n != root && DependsTransitively(tasks, n, root)
    ensures NearestFirst(Layers(tasks, root), out)
    ensures [root] + out == Found(tasks, root, |out| + 1)
  {
    var dependents := Reverse(tasks);
    out := [];
    var seen := {root};
    var queue := [root];
    ghost var order, dist: seq<nat>, i := [root], [0], 0;
    Starts(tasks, root);
    while |queue| > 0
      invariant order == [root] + out && i <= |order| && queue == order[i..]
      invariant Known(tasks, root, order, dist, i)
      invariant order == Found(tasks, root, i)
      invariant forall n :: n in seen <==> n in order
      decreases |Names(tasks) + {root}| - i
    {
      var found;
      ChildrenDepend(tasks, queue[0]);
      assert seen == set n | n in order;
      seen, found := Expand(tasks, Lookup(dependents, queue[0]), seen, order, i);
      QueueMoves(root, out, order, i, found);
      dist := Progress(tasks, root, order, dist, i, found);
      out := out + found;
      queue := queue[1..] + found;
      order, i := order + found, i + 1;
    }
    SearchEnds(tasks, root, out, dist);
  }

  /** No name comes before a nearer one. */
  ghost predicate NearestFirst(layer: nat -> set<string>, out: seq<string>) {
    forall i, j, k: nat :: 0 <= i <= j < |out| && out[j] in layer(k) ==> out[i] in layer(k)
  }

  lemma EndsNearestFirst(layer: nat -> set<string>, order: seq<string>, dist: seq<nat>, i: nat, j: nat, k: nat)
    requires Growing(layer) && Distances(layer, order, dist) && i <= j < |order| && order[j] in layer(k)
    ensures order[i] in layer(k)
  {
    assert dist[i] <= dist[j];
    if dist[j] > k { assert false; }
  }

  lemma EndsComplete(tasks: seq<Task>, root: string, out: seq<string>, n: string)
    requires Searched(tasks, root, [root] + out, |[root] + out|)
    requires n != root && DependsTransitively(tasks, n, root)
    ensures n in out
  {
    var path :| Chain(tasks, path) && |path| > 1 && path[0] == n && path[|path| - 1] == root;
    DependsWithin(tasks, path);
    SearchComplete(tasks, root, [root] + out, |path| - 1);
  }

  lemma EndsSound(tasks: seq<Task>, root: string, out: seq<string>, dist: seq<nat>, n: string)
    requires Distances(Layers(tasks, root), [root] + out, dist) && NoRepeats([root] + out)
    requires n in out
    ensures n != root && DependsTransitively(tasks, n, root)
  {
    var order := [root] + out;
    var j :| 0 <= j < |out| && out[j] == n;
    assert order[0] != order[j + 1] && order[j + 1] in Layers(tasks, root)(dist[j + 1]);
    WithinDepends(tasks, root, order[j + 1], dist[j + 1]);
  }

  lemma SearchEnds(tasks: seq<Task>, root: string, out: seq<string>, dist: seq<nat>)
    requires Known(tasks, root, [root] + out, dist, |[root] + out|)
    ensures NoRepeats(out)
    ensures forall n :: n in out <==> n != root && DependsTransitively(tasks, n, root)
    ensures NearestFirst(Layers(tasks, root), out)
  {
    forall i, j | 0 <= i < j < |out| ensures out[i] != out[j] {
      assert ([root] + out)[i + 1] != ([root] + out)[j + 1];
    }
    forall n ensures n in out <==> n != root && DependsTransitively(tasks, n, root) {
      if n in out { EndsSound(tasks, root, out, dist, n); }
      if n != root && DependsTransitively(tasks, n, root) { EndsComplete(tasks, root, out, n); }
    }
    LayersGrow(tasks, root);
    OutNearestFirst(Layers(tasks, root), root, out, dist);
  }

  lemma OutNearestFirst(layer: nat -> set<string>, root: string, out: seq<string>, dist: seq<nat>)
    requires Growing(layer) && Distances(layer, [root] + out, dist)
    ensures NearestFirst(layer, out)
  {
    forall i, j, k: nat | 0 <= i <= j < |out| && out[j] in layer(k) ensures out[i] in layer(k) {
      assert out[i] == ([root] + out)[i + 1] && out[j] == ([root] + out)[j + 1];
      EndsNearestFirst(layer, [root] + out, dist, i + 1, j + 1, k);
    }
  }
}
