/** What a schedule's dependency graph means, with no goroutine in sight. */
module Dag {
  // `Meaning` is the plain recursive reading of the graph: a task is reached when everything it
  // depends on is reached, and it then either runs its body or is skipped because a dependency
  // failed. The graph may hold cycles, repeated entries and names of tasks that do not exist.

  /** The arguments of the walker: each task's depends list, and the tasks marked continue_on_failure. */
  datatype Plan = Plan(deps: map<string, seq<string>>, carryOn: set<string>)

  /** Which bodies return an error when called, and with what text. */
  type Errors = map<string, string>

  /** What becomes of one task. */
  datatype Outcome =
    | Unreached
    | Ran(bodyFailed: bool)
    | Skipped(failedDep: string)
  {
    /** A skipped task counts as failed, so that the failure cascades. */
    predicate Failed() {
      Skipped? || (Ran? && bodyFailed)
    }
  }

  /** The first entry of `ds` that is in `failed`, or "" when there is none. */
  function FirstFailed(ds: seq<string>, failed: set<string>): string {
    if ds == [] then ""
    else if ds[0] in failed then ds[0]
    else FirstFailed(ds[1..], failed)
  }

  /** The fate of a task whose dependencies are all settled. */
  function Settle(p: Plan, errs: Errors, n: string, failed: set<string>): Outcome
    requires n in p.deps
  {
    var culprit := if n in p.carryOn then "" else FirstFailed(p.deps[n], failed);
    if culprit != "" then Skipped(culprit) else Ran(n in errs)
  }

  /** The fate of `n`, following depends at most `k` levels down. */
  ghost function Fate(p: Plan, errs: Errors, n: string, k: nat): Outcome
    decreases k, 0
  {
    if k == 0 || n !in p.deps || exists d :: d in p.deps[n] && Fate(p, errs, d, k - 1).Unreached? then
      Unreached
    else
      Settle(p, errs, n, FailedWithin(p, errs, p.deps[n], k - 1))
  }

  ghost function FailedWithin(p: Plan, errs: Errors, ds: seq<string>, k: nat): set<string>
    decreases k, 1
  {
    set d | d in ds && Fate(p, errs, d, k).Failed()
  }

  /** The fate of `n`: as many levels as there are tasks is always enough (see `MeaningEquation`). */
  ghost function Meaning(p: Plan, errs: Errors, n: string): Outcome {
    Fate(p, errs, n, |p.deps|)
  }

  ghost function FailedTasks(p: Plan, errs: Errors): set<string> {
    set n | n in p.deps && Meaning(p, errs, n).Failed()
  }

  ghost function RanTasks(p: Plan, errs: Errors): set<string> {
    set n | n in p.deps && Meaning(p, errs, n).Ran?
  }

  ghost function UnreachedTasks(p: Plan, errs: Errors): set<string> {
    set n | n in p.deps && Meaning(p, errs, n).Unreached?
  }

  ghost function SucceededTasks(p: Plan, errs: Errors): set<string> {
    set n | n in p.deps && Meaning(p, errs, n) == Ran(false)
  }

  // ----- FirstFailed -----

  lemma {:induction false} FirstFailedIs(ds: seq<string>, failed: set<string>)
    ensures FirstFailed(ds, failed) != "" ==> FirstFailed(ds, failed) in ds && FirstFailed(ds, failed) in failed
    ensures FirstFailed(ds, failed) == "" ==> ("" in ds && "" in failed) || forall d :: d in ds ==> d !in failed
  {
    if ds != [] && ds[0] !in failed {
      FirstFailedIs(ds[1..], failed);
      assert ds == [ds[0]] + ds[1..];
    }
  }

  /** It is the first of them: whoever comes before it has not failed. */
  lemma {:induction false} FirstFailedIsFirst(ds: seq<string>, failed: set<string>)
    ensures (forall d :: d in ds ==> d !in failed) ==> FirstFailed(ds, failed) == ""
    ensures (exists d :: d in ds && d in failed) ==>
              exists i :: (0 <= i < |ds| && ds[i] in failed && ds[i] == FirstFailed(ds, failed)
                           && forall j :: 0 <= j < i ==> ds[j] !in failed)
  {
    if ds != [] {
      assert ds == [ds[0]] + ds[1..];
      if ds[0] !in failed {
        FirstFailedIsFirst(ds[1..], failed);
        if exists d :: d in ds && d in failed {
          var i :| 0 <= i < |ds[1..]| && ds[1..][i] in failed && ds[1..][i] == FirstFailed(ds[1..], failed)
                   && forall j :: 0 <= j < i ==> ds[1..][j] !in failed;
          forall j | 0 <= j < i + 1 ensures ds[j] !in failed {
            if j > 0 { assert ds[j] == ds[1..][j - 1]; }
          }
          assert ds[i + 1] == ds[1..][i];
        }
      }
    }
  }

  lemma {:induction false} FirstFailedAgrees(ds: seq<string>, a: set<string>, b: set<string>)
    requires forall d :: d in ds ==> (d in a <==> d in b)
    ensures FirstFailed(ds, a) == FirstFailed(ds, b)
  {
    if ds != [] {
      assert ds == [ds[0]] + ds[1..];
      FirstFailedAgrees(ds[1..], a, b);
    }
  }

  // ----- Enough levels -----

  /** Once settled, a fate does not change when more levels are followed. */
  lemma {:induction false} FateIsStable(p: Plan, errs: Errors, n: string, k: nat, j: nat)
    requires k <= j && !Fate(p, errs, n, k).Unreached?
    ensures Fate(p, errs, n, j) == Fate(p, errs, n, k)
    decreases k
  {
    forall d | d in p.deps[n]
      ensures Fate(p, errs, d, j - 1) == Fate(p, errs, d, k - 1)
    {
      FateIsStable(p, errs, d, k - 1, j - 1);
    }
    assert FailedWithin(p, errs, p.deps[n], j - 1) == FailedWithin(p, errs, p.deps[n], k - 1);
  }

  ghost function ReachedWithin(p: Plan, errs: Errors, k: nat): set<string> {
    set n | n in p.deps && !Fate(p, errs, n, k).Unreached?
  }

  /** When one more level reaches nothing new, no further level does. */
  lemma {:induction false} ReachSaturates(p: Plan, errs: Errors, k: nat, j: nat)
    requires k <= j && ReachedWithin(p, errs, k + 1) == ReachedWithin(p, errs, k)
    ensures ReachedWithin(p, errs, j) == ReachedWithin(p, errs, k)
    decreases j
  {
    if k < j {
      ReachSaturates(p, errs, k, j - 1);
      forall n | n in p.deps
        ensures n in ReachedWithin(p, errs, j) <==> n in ReachedWithin(p, errs, k + 1)
      {
        forall d | d in p.deps[n]
          ensures Fate(p, errs, d, j - 1).Unreached? <==> Fate(p, errs, d, k).Unreached?
        {
          assert d in p.deps ==> (d in ReachedWithin(p, errs, j - 1) <==> d in ReachedWithin(p, errs, k));
        }
      }
    }
  }

  /** Each level either reaches a new task or ends the growth. */
  lemma {:induction false} ReachGrows(p: Plan, errs: Errors, k: nat)
    ensures |ReachedWithin(p, errs, k)| >= k || ReachedWithin(p, errs, k + 1) == ReachedWithin(p, errs, k)
    decreases k
  {
    if k > 0 {
      ReachGrows(p, errs, k - 1);
      var a, b := ReachedWithin(p, errs, k - 1), ReachedWithin(p, errs, k);
      if a == b {
        ReachSaturates(p, errs, k - 1, k + 1);
      } else {
        forall n | n in a ensures n in b { FateIsStable(p, errs, n, k - 1, k); }
        SmallerSubset(a, b);
      }
    }
  }

  lemma SmallerSubset<T>(a: set<T>, b: set<T>)
    requires a <= b
    ensures |a| <= |b|
    ensures a != b ==> |a| < |b|
  {
    assert b == a + (b - a);
    if a != b {
      var x :| x in b - a;
    }
  }

  lemma DepsCount(p: Plan)
    ensures |p.deps.Keys| == |p.deps|
  {
  }

  /** Following more levels than there are tasks finds nothing new. */
  lemma EnoughLevels(p: Plan, errs: Errors, n: string, k: nat)
    requires !Fate(p, errs, n, k).Unreached?
    ensures Meaning(p, errs, n) == Fate(p, errs, n, k)
  {
    var size := |p.deps|;
    if k <= size {
      FateIsStable(p, errs, n, k, size);
    } else {
      ReachGrows(p, errs, size);
      SmallerSubset(ReachedWithin(p, errs, size), p.deps.Keys);
      SmallerSubset(ReachedWithin(p, errs, size + 1), p.deps.Keys);
      forall m | m in ReachedWithin(p, errs, size) ensures m in ReachedWithin(p, errs, size + 1) {
        FateIsStable(p, errs, m, size, size + 1);
      }
      SmallerSubset(ReachedWithin(p, errs, size), ReachedWithin(p, errs, size + 1));
      ReachSaturates(p, errs, size, k);
      assert n in ReachedWithin(p, errs, k);
      FateIsStable(p, errs, n, size, k);
    }
  }

  /** The level count disappears: `Meaning` satisfies the recursion it stands for. */
  lemma MeaningEquation(p: Plan, errs: Errors, n: string)
    ensures n !in p.deps ==> Meaning(p, errs, n) == Unreached
    ensures n in p.deps && (forall d :: d in p.deps[n] ==> !Meaning(p, errs, d).Unreached?) ==>
              Meaning(p, errs, n) == Settle(p, errs, n, FailedTasks(p, errs))
    ensures n in p.deps && (exists d :: d in p.deps[n] && Meaning(p, errs, d).Unreached?) ==>
              Meaning(p, errs, n) == Unreached
  {
    if n in p.deps {
      var size := |p.deps|;
      if forall d :: d in p.deps[n] ==> !Meaning(p, errs, d).Unreached? {
        var local := FailedWithin(p, errs, p.deps[n], size);
        assert Fate(p, errs, n, size + 1) == Settle(p, errs, n, local);
        EnoughLevels(p, errs, n, size + 1);
        FirstFailedAgrees(p.deps[n], local, FailedTasks(p, errs));
      } else {
        var d :| d in p.deps[n] && Meaning(p, errs, d).Unreached?;
        if !Meaning(p, errs, n).Unreached? {
          assert size > 0 && !Fate(p, errs, d, size - 1).Unreached?;
          EnoughLevels(p, errs, d, size - 1);
        }
      }
    }
  }

  /** A task ran and returned an error, or was skipped. */
  ghost predicate WentWrong(p: Plan, errs: Errors, n: string) {
    Meaning(p, errs, n).Skipped? || Meaning(p, errs, n) == Ran(true)
  }

  /** The plain meaning in words of its own, for a task whose dependencies are all reached: it is skipped for the entry
    * of its list that is the first to have gone wrong, unless it carries on or that entry is the empty name; and
    * otherwise it runs, and fails just when its body returns an error. */
  lemma ReachedMeans(p: Plan, errs: Errors, n: string)
    requires n in p.deps && forall d :: d in p.deps[n] ==> Meaning(p, errs, d) != Unreached
    ensures forall i :: (0 <= i < |p.deps[n]| && WentWrong(p, errs, p.deps[n][i])
                         && forall j :: 0 <= j < i ==> !WentWrong(p, errs, p.deps[n][j])) ==>
              Meaning(p, errs, n) ==
                if n in p.carryOn || p.deps[n][i] == "" then Ran(n in errs) else Skipped(p.deps[n][i])
    ensures (forall d :: d in p.deps[n] ==> !WentWrong(p, errs, d)) ==> Meaning(p, errs, n) == Ran(n in errs)
  {
    var ds, failed := p.deps[n], FailedTasks(p, errs);
    MeaningEquation(p, errs, n);
    FirstFailedIsFirst(ds, failed);
    forall d | d in ds ensures d in failed <==> WentWrong(p, errs, d) {
      MeaningEquation(p, errs, d);
    }
    forall i | 0 <= i < |ds| && WentWrong(p, errs, ds[i]) && forall j :: 0 <= j < i ==> !WentWrong(p, errs, ds[j])
      ensures FirstFailed(ds, failed) == ds[i]
    {
      assert ds[i] in failed;
      var k :| 0 <= k < |ds| && ds[k] in failed && ds[k] == FirstFailed(ds, failed) && forall j :: 0 <= j < k ==> ds[j] !in failed;
      assert k == i;
    }
  }

  // ----- Leftovers: cycles and names of no task -----

  /** `path` follows depends entries, each task to one it depends on. */
  ghost predicate Follows(p: Plan, path: seq<string>) {
    && |path| > 0
    && forall i :: 0 <= i < |path| - 1 ==> path[i] in p.deps && path[i + 1] in p.deps[path[i]]
  }

  /** `path` ends at a name that is no task, or at a task it has already been through. */
  ghost predicate GoesWrong(p: Plan, path: seq<string>) {
    && |path| > 0
    && (path[|path| - 1] !in p.deps || exists i :: 0 <= i < |path| - 1 && path[i] == path[|path| - 1])
  }

  /** A reached task needs fewer levels for each step along a path. */
  lemma {:induction false} LevelsAlongPath(p: Plan, errs: Errors, path: seq<string>, k: nat, i: nat)
    requires Follows(p, path) && i < |path| && !Fate(p, errs, path[0], k).Unreached?
    ensures i < k && !Fate(p, errs, path[i], k - i).Unreached?
    decreases i
  {
    if i > 0 {
      LevelsAlongPath(p, errs, path, k, i - 1);
      assert path[i - 1 + 1] in p.deps[path[i - 1]];
    }
  }

  ghost predicate NeedsExactly(p: Plan, errs: Errors, n: string, k: nat) {
    !Fate(p, errs, n, k).Unreached? && forall j: nat :: j < k ==> Fate(p, errs, n, j).Unreached?
  }

  lemma {:induction false} LeastLevel(p: Plan, errs: Errors, n: string, k: nat) returns (least: nat)
    requires !Fate(p, errs, n, k).Unreached?
    ensures least <= k && NeedsExactly(p, errs, n, least)
    decreases k
  {
    if j: nat :| j < k && !Fate(p, errs, n, j).Unreached? {
      least := LeastLevel(p, errs, n, j);
    } else {
      least := k;
    }
  }

  lemma ReachedNeverGoesWrong(p: Plan, errs: Errors, path: seq<string>)
    requires Follows(p, path) && !Meaning(p, errs, path[0]).Unreached?
    ensures !GoesWrong(p, path)
  {
    var last := |path| - 1;
    LevelsAlongPath(p, errs, path, |p.deps|, last);
    if i :| 0 <= i < last && path[i] == path[last] {
      LevelsAlongPath(p, errs, path, |p.deps|, i);
      var least := LeastLevel(p, errs, path[i], |p.deps| - i);
      LevelsAlongPath(p, errs, path[i..], least, last - i);
    }
  }

  /** From an unreached task there is always a next unreached step, so following them goes wrong. */
  lemma {:induction false} ChaseUnreached(p: Plan, errs: Errors, path: seq<string>) returns (wrong: seq<string>)
    requires Follows(p, path) && Meaning(p, errs, path[|path| - 1]).Unreached?
    requires forall i :: 0 <= i < |path| ==> path[i] in p.deps
    requires forall i, j :: 0 <= i < j < |path| ==> path[i] != path[j]
    ensures Follows(p, wrong) && GoesWrong(p, wrong) && path <= wrong && |path| < |wrong|
    ensures forall i :: |path| <= i < |wrong| ==> Meaning(p, errs, wrong[i]).Unreached?
    decreases |p.deps| - |path|
  {
    var n := path[|path| - 1];
    MeaningEquation(p, errs, n);
    var d :| d in p.deps[n] && Meaning(p, errs, d).Unreached?;
    var longer := path + [d];
    assert Follows(p, longer) by {
      forall i | 0 <= i < |longer| - 1 ensures longer[i] in p.deps && longer[i + 1] in p.deps[longer[i]] {
        if i < |path| - 1 { assert path[i + 1] in p.deps[path[i]]; }
      }
    }
    if d !in p.deps || d in path {
      wrong := longer;
      if d in path {
        var i :| 0 <= i < |path| && path[i] == d;
        assert wrong[i] == wrong[|wrong| - 1];
      }
    } else {
      DistinctWithin(longer, p.deps.Keys);
      wrong := ChaseUnreached(p, errs, longer);
    }
  }

  lemma {:induction false} DistinctWithin(s: seq<string>, all: set<string>)
    requires forall i :: 0 <= i < |s| ==> s[i] in all
    requires forall i, j :: 0 <= i < j < |s| ==> s[i] != s[j]
    ensures |s| <= |all|
    decreases |s|
  {
    if |s| > 0 {
      var last := s[|s| - 1];
      DistinctWithin(s[..|s| - 1], all - {last});
    }
  }

  /** A task is left over exactly when following depends from it reaches a cycle or a name of no task. */
  lemma UnreachedIff(p: Plan, errs: Errors, n: string)
    requires n in p.deps
    ensures Meaning(p, errs, n).Unreached? <==>
              exists path :: Follows(p, path) && path[0] == n && GoesWrong(p, path)
  {
    if Meaning(p, errs, n).Unreached? {
      var wrong := ChaseUnreached(p, errs, [n]);
      assert wrong[0] == [n][0];
    } else {
      forall path | Follows(p, path) && path[0] == n
        ensures !GoesWrong(p, path)
      {
        ReachedNeverGoesWrong(p, errs, path);
      }
    }
  }

  /** A path that comes back to where it started. */
  ghost predicate IsCycle(p: Plan, path: seq<string>) {
    Follows(p, path) && |path| > 1 && path[0] == path[|path| - 1]
  }

  /** Every depends entry names a task. */
  ghost predicate Closed(p: Plan) {
    forall n, d :: n in p.deps && d in p.deps[n] ==> d in p.deps
  }

  ghost predicate Acyclic(p: Plan) {
    forall path :: !IsCycle(p, path)
  }

  /** With every depends entry naming a task, something is left over exactly when there is a cycle,
    * and a whole cycle lies inside what is left over. */
  lemma LeftoversIffCycle(p: Plan, errs: Errors)
    requires Closed(p)
    ensures UnreachedTasks(p, errs) != {} <==> !Acyclic(p)
    ensures UnreachedTasks(p, errs) != {} ==>
              exists path :: IsCycle(p, path) && forall n :: n in path ==> n in UnreachedTasks(p, errs)
  {
    if n :| n in UnreachedTasks(p, errs) {
      var wrong := ChaseUnreached(p, errs, [n]);
      assert wrong[0] == [n][0];
      var last := |wrong| - 1;
      assert wrong[last] in p.deps[wrong[last - 1]] by { assert wrong[last - 1 + 1] in p.deps[wrong[last - 1]]; }
      var i :| 0 <= i < last && wrong[i] == wrong[last];
      var path := wrong[i..];
      assert Follows(p, path) by {
        forall j | 0 <= j < |path| - 1 ensures path[j] in p.deps && path[j + 1] in p.deps[path[j]] {
          assert wrong[i + j + 1] in p.deps[wrong[i + j]];
        }
      }
      forall m | m in path ensures m in UnreachedTasks(p, errs) {
        var j :| 0 <= j < |path| && path[j] == m;
        assert Meaning(p, errs, wrong[i + j]).Unreached?;
        if j < |path| - 1 { assert path[j] in p.deps; } else { assert path[0] in p.deps; }
      }
      assert IsCycle(p, path);
    }
    forall path | IsCycle(p, path) ensures path[0] in UnreachedTasks(p, errs) {
      assert path[0] in p.deps;
      assert GoesWrong(p, path);
      UnreachedIff(p, errs, path[0]);
    }
  }

  /** Which tasks are reached does not depend on what the bodies return. */
  lemma UnreachedIgnoresErrors(p: Plan, a: Errors, b: Errors, n: string)
    ensures Meaning(p, a, n).Unreached? <==> Meaning(p, b, n).Unreached?
  {
    if n in p.deps {
      UnreachedIff(p, a, n);
      UnreachedIff(p, b, n);
    }
  }

  // ----- Names that are empty -----

  /** No task that does not carry on runs its body after something it depends on failed. */
  ghost predicate FailureCascades(p: Plan, errs: Errors) {
    forall n, d :: n in p.deps && n !in p.carryOn && d in p.deps[n] && Meaning(p, errs, n).Ran? ==>
      !Meaning(p, errs, d).Failed()
  }

  /** When only the task named "" fails, nothing is skipped. */
  lemma {:induction false} EmptyNameStopsNothing(p: Plan, errs: Errors, n: string, k: nat)
    requires forall m :: m in errs ==> m == ""
    requires !Fate(p, errs, n, k).Unreached?
    ensures Fate(p, errs, n, k) == Ran(n in errs)
    decreases k
  {
    var failed := FailedWithin(p, errs, p.deps[n], k - 1);
    forall d | d in failed ensures d == "" {
      EmptyNameStopsNothing(p, errs, d, k - 1);
    }
    FirstFailedIs(p.deps[n], failed);
  }

  /** The walker takes "" for "no failed dependency", so failures cascade whatever the bodies return exactly when
    * no task that can be reached, and does not carry on, depends on a task named "". */
  lemma CascadesIff(p: Plan)
    ensures (forall errs: Errors :: FailureCascades(p, errs))
       <==> forall n :: n in p.deps && n !in p.carryOn && "" in p.deps[n] ==> Meaning(p, map[], n).Unreached?
  {
    if n :| n in p.deps && n !in p.carryOn && "" in p.deps[n] && !Meaning(p, map[], n).Unreached? {
      EmptyNameBreaks(p, n);
    } else {
      forall errs: Errors ensures FailureCascades(p, errs) {
        NoEmptyNameCascades(p, errs);
      }
    }
  }

  lemma EmptyNameBreaks(p: Plan, n: string)
    requires n in p.deps && n !in p.carryOn && "" in p.deps[n] && !Meaning(p, map[], n).Unreached?
    ensures !FailureCascades(p, map["" := "boom"])
  {
    var errs := map["" := "boom"];
    UnreachedIgnoresErrors(p, map[], errs, n);
    EmptyNameStopsNothing(p, errs, n, |p.deps|);
    MeaningEquation(p, errs, n);
    EmptyNameStopsNothing(p, errs, "", |p.deps|);
  }

  lemma NoEmptyNameCascades(p: Plan, errs: Errors)
    requires forall n :: n in p.deps && n !in p.carryOn && "" in p.deps[n] ==> Meaning(p, map[], n).Unreached?
    ensures FailureCascades(p, errs)
  {
    forall n, d | n in p.deps && n !in p.carryOn && d in p.deps[n] && Meaning(p, errs, n).Ran?
      ensures !Meaning(p, errs, d).Failed()
    {
      UnreachedIgnoresErrors(p, map[], errs, n);
      MeaningEquation(p, errs, n);
      MeaningEquation(p, errs, d);
      FirstFailedIs(p.deps[n], FailedTasks(p, errs));
    }
  }
}
