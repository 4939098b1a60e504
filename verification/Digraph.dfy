/** Finite directed graphs given by their edge sets: paths, reachability, cycles. */
module Digraph {
  ghost predicate IsPath<T>(edges: set<(T, T)>, p: seq<T>) {
    |p| > 0 && forall i, j :: 0 <= i < j < |p| && j == i + 1 ==> (p[i], p[j]) in edges
  }

  ghost predicate PathFromTo<T>(edges: set<(T, T)>, p: seq<T>, a: T, b: T) {
    IsPath(edges, p) && p[0] == a && p[|p|-1] == b
  }

  ghost predicate Reaches<T(!new)>(edges: set<(T, T)>, a: T, b: T) {
    exists p :: PathFromTo(edges, p, a, b)
  }

  ghost predicate Mutual<T(!new)>(edges: set<(T, T)>, a: T, b: T) {
    Reaches(edges, a, b) && Reaches(edges, b, a)
  }

  /** Some edge closes a path on itself; a self-loop counts. */
  ghost predicate Cyclic<T(!new)>(edges: set<(T, T)>) {
    exists a, b :: (a, b) in edges && Reaches(edges, b, a)
  }

  ghost predicate ClosedUnder<T(!new)>(edges: set<(T, T)>, s: set<T>) {
    forall a, b :: (a, b) in edges && a in s ==> b in s
  }

  predicate NoDuplicates<T(==)>(p: seq<T>) {
    forall i, j :: 0 <= i < j < |p| ==> p[i] != p[j]
  }

  lemma ReachesSelf<T(!new)>(edges: set<(T, T)>, a: T)
    ensures Reaches(edges, a, a)
  {
    assert PathFromTo(edges, [a], a, a);
  }

  lemma ReachesEdge<T(!new)>(edges: set<(T, T)>, a: T, b: T)
    requires (a, b) in edges
    ensures Reaches(edges, a, b)
  {
    assert PathFromTo(edges, [a, b], a, b);
  }

  lemma ReachesTransitive<T(!new)>(edges: set<(T, T)>, a: T, b: T, c: T)
    requires Reaches(edges, a, b) && Reaches(edges, b, c)
    ensures Reaches(edges, a, c)
  {
    var p :| PathFromTo(edges, p, a, b);
    var q :| PathFromTo(edges, q, b, c);
    var r := p + q[1..];
    forall h, i | 0 <= h < i < |r| && i == h + 1 ensures (r[h], r[i]) in edges {
      if i >= |p| { assert r[i] == q[i-|p|+1] && r[h] == q[i-|p|]; }
    }
    assert PathFromTo(edges, r, a, c);
  }

  lemma ReachesThenEdge<T(!new)>(edges: set<(T, T)>, a: T, b: T, c: T)
    requires Reaches(edges, a, b) && (b, c) in edges
    ensures Reaches(edges, a, c)
  {
    ReachesEdge(edges, b, c);
    ReachesTransitive(edges, a, b, c);
  }

  lemma PathNodeBetween<T(!new)>(edges: set<(T, T)>, p: seq<T>, i: nat)
    requires IsPath(edges, p) && i < |p|
    ensures Reaches(edges, p[0], p[i]) && Reaches(edges, p[i], p[|p|-1])
  {
    assert PathFromTo(edges, p[..i+1], p[0], p[i]);
    assert PathFromTo(edges, p[i..], p[i], p[|p|-1]);
  }

  /** A path leaving a set crosses an edge out of it. */
  lemma {:induction false} ExitEdge<T(!new)>(edges: set<(T, T)>, s: set<T>, a: T, b: T) returns (u: T, v: T)
    requires Reaches(edges, a, b) && a in s && b !in s
    ensures u in s && v !in s && (u, v) in edges && Reaches(edges, a, u) && Reaches(edges, v, b)
  {
    var p :| PathFromTo(edges, p, a, b);
    var i := 0;
    while p[i+1] in s
      invariant 0 <= i < |p| - 1 && p[i] in s
      decreases |p| - i
    {
      i := i + 1;
    }
    u, v := p[i], p[i+1];
    PathNodeBetween(edges, p, i);
    PathNodeBetween(edges, p, i + 1);
  }

  lemma ClosedReaches<T(!new)>(edges: set<(T, T)>, s: set<T>, a: T, b: T)
    requires ClosedUnder(edges, s) && a in s && Reaches(edges, a, b)
    ensures b in s
  {
    if b !in s { var u, v := ExitEdge(edges, s, a, b); }
  }

  /** Cutting out loops: whatever is reachable is reachable along a simple path. */
  lemma {:induction false} SimplePath<T(!new)>(edges: set<(T, T)>, p: seq<T>, a: T, b: T) returns (q: seq<T>)
    requires PathFromTo(edges, p, a, b)
    ensures PathFromTo(edges, q, a, b) && NoDuplicates(q)
    decreases |p|
  {
    if NoDuplicates(p) { return p; }
    var i, j :| 0 <= i < j < |p| && p[i] == p[j];
    var r := p[..i] + p[j..];
    forall h, k | 0 <= h < k < |r| && k == h + 1 ensures (r[h], r[k]) in edges {
      if k < i {
      } else if k == i {
        assert r[k] == p[j] == p[i] && r[h] == p[i-1];
      } else {
        assert r[k] == p[k-i+j] && r[h] == p[h-i+j];
      }
    }
    assert r[|r|-1] == b;
    q := SimplePath(edges, r, a, b);
  }

  lemma NoDuplicatesBound<T>(p: seq<T>, s: set<T>)
    requires NoDuplicates(p) && forall i :: 0 <= i < |p| ==> p[i] in s
    ensures |p| <= |s|
  {
    if p != [] {
      var last := p[|p|-1];
      NoDuplicatesBound(p[..|p|-1], s - {last});
    }
  }

  ghost predicate HasSuccessorIn<T(!new)>(edges: set<(T, T)>, s: set<T>, a: T) {
    exists b :: b in s && (a, b) in edges
  }

  /** A finite non-empty set in which every node has a successor holds a cycle. */
  lemma {:induction false} WalkCloses<T(!new)>(edges: set<(T, T)>, s: set<T>, p: seq<T>)
    requires forall a :: a in s ==> HasSuccessorIn(edges, s, a)
    requires IsPath(edges, p) && NoDuplicates(p) && forall i :: 0 <= i < |p| ==> p[i] in s
    ensures Cyclic(edges)
    decreases |s| - |p|
  {
    NoDuplicatesBound(p, s);
    var last := p[|p|-1];
    assert HasSuccessorIn(edges, s, last);
    var next :| next in s && (last, next) in edges;
    if next in p {
      var i :| 0 <= i < |p| && p[i] == next;
      PathNodeBetween(edges, p, i);
      assert Reaches(edges, next, last);
    } else {
      var q := p + [next];
      NoDuplicatesBound(q, s);
      WalkCloses(edges, s, q);
    }
  }

  lemma EveryNodeHasSuccessor<T(!new)>(edges: set<(T, T)>, s: set<T>)
    requires s != {}
    requires forall a :: a in s ==> HasSuccessorIn(edges, s, a)
    ensures Cyclic(edges)
  {
    var a :| a in s;
    WalkCloses(edges, s, [a]);
  }
}
