/** Small shared datatypes. */
module Wrappers {

  datatype Option<+T> = None | Some(value: T)

  datatype Result<+T> = Ok(value: T) | Err(message: string)

  /** m[key], or the empty list when the map has no such key. */
  function Lookup(m: map<string, seq<string>>, key: string): seq<string> {
    if key in m then m[key] else []
  }

  ghost predicate NoRepeats<T(!new)>(s: seq<T>) {
    forall i, j :: 0 <= i < j < |s| ==> s[i] != s[j]
  }

  /** The names not in `skip`, each once, where it first comes. */
  function Distinct(names: seq<string>, skip: set<string>): seq<string> {
    if names == [] then []
    else
      var last := |names| - 1;
      var front := Distinct(names[..last], skip);
      if names[last] in skip || names[last] in front then front else front + [names[last]]
  }

  /** The first place of `n`. */
  function FirstAt(names: seq<string>, n: string): (i: nat)
    requires n in names
    ensures i < |names| && names[i] == n && forall j :: 0 <= j < i ==> names[j] != n
  {
    if names[0] == n then 0
    else
      assert names == [names[0]] + names[1..];
      1 + FirstAt(names[1..], n)
  }

  lemma {:induction false} DistinctAre(names: seq<string>, skip: set<string>)
    ensures NoRepeats(Distinct(names, skip))
    ensures forall n :: n in Distinct(names, skip) <==> n in names && n !in skip
    decreases |names|
  {
    if names != [] {
      var last := |names| - 1;
      DistinctAre(names[..last], skip);
      assert names == names[..last] + [names[last]];
    }
  }

  /** They stand in the order in which they first come. */
  lemma {:induction false} DistinctInOrder(names: seq<string>, skip: set<string>, i: nat, j: nat)
    requires i < j < |Distinct(names, skip)|
    ensures Distinct(names, skip)[i] in names && Distinct(names, skip)[j] in names
    ensures FirstAt(names, Distinct(names, skip)[i]) < FirstAt(names, Distinct(names, skip)[j])
    decreases |names|
  {
    var last := |names| - 1;
    var front := Distinct(names[..last], skip);
    DistinctAre(names, skip);
    DistinctAre(names[..last], skip);
    assert names == names[..last] + [names[last]];
    SameFirst(names[..last], names[last], front[i]);
    if j < |front| {
      DistinctInOrder(names[..last], skip, i, j);
      SameFirst(names[..last], names[last], front[j]);
    }
  }

  lemma SameFirst(front: seq<string>, last: string, n: string)
    requires n in front
    ensures n in front + [last] && FirstAt(front + [last], n) == FirstAt(front, n)
  {
    var i := FirstAt(front, n);
    assert forall j :: 0 <= j <= i ==> (front + [last])[j] == front[j];
  }

  /** What is built item by item splits wherever the items are split. */
  lemma {:induction false} Additive<S(!new), T>(f: seq<S> -> seq<T>, one: S -> seq<T>, a: seq<S>, b: seq<S>)
    requires f([]) == [] && forall front, x :: f(front + [x]) == f(front) + one(x)
    ensures f(a + b) == f(a) + f(b)
    decreases |b|
  {
    if b == [] {
      assert a + b == a;
    } else {
      var front, x := b[..|b| - 1], b[|b| - 1];
      Additive(f, one, a, front);
      assert a + b == (a + front) + [x] && b == front + [x];
      assert f((a + front) + [x]) == f(a + front) + one(x) && f(front + [x]) == f(front) + one(x);
    }
  }
}
