/**
 * The construction order as mathematics: always emit next the least identifier whose dependencies
 * have all been emitted. Pairs in `deps` read (consumer, dependency). Everything here depends on
 * sets of identifiers only, never on how a catalog numbers or lists its providers.
 */
module LeastOrder {
  import opened Digraph
  import opened StringOrder

  /** Every dependency of n lies in s. */
  ghost predicate DependsOnlyOn(deps: set<(string, string)>, n: string, s: set<string>) {
    forall d :: (n, d) in deps ==> d in s
  }

  ghost function Ready(nodes: set<string>, deps: set<(string, string)>, done: set<string>): set<string> {
    set n | n in nodes && n !in done && DependsOnlyOn(deps, n, done)
  }

  ghost function Emit(nodes: set<string>, deps: set<(string, string)>, done: set<string>): seq<string>
    decreases nodes - done
  {
    var ready := Ready(nodes, deps, done);
    if ready == {} then [] else [Least(ready)] + Emit(nodes, deps, done + {Least(ready)})
  }

  ghost function Elements(s: seq<string>): set<string> { set x | x in s }

  /** Every element's dependencies are already done or stand before it. */
  ghost predicate DependenciesFirst(order: seq<string>, deps: set<(string, string)>, done: set<string>) {
    forall i :: 0 <= i < |order| ==> DependsOnlyOn(deps, order[i], done + Elements(order[..i]))
  }

  /** A listing of exactly `nodes`, dependencies first. */
  ghost predicate Topological(order: seq<string>, nodes: set<string>, deps: set<(string, string)>) {
    NoDuplicates(order) && Elements(order) == nodes && DependenciesFirst(order, deps, {})
  }

  lemma {:induction false} EmitIsSound(nodes: set<string>, deps: set<(string, string)>, done: set<string>)
    ensures var r := Emit(nodes, deps, done);
            NoDuplicates(r) && Elements(r) <= nodes - done && DependenciesFirst(r, deps, done)
    decreases nodes - done
  {
    var ready := Ready(nodes, deps, done);
    var r := Emit(nodes, deps, done);
    if ready != {} {
      var m := Least(ready);
      var rest := Emit(nodes, deps, done + {m});
      EmitIsSound(nodes, deps, done + {m});
      forall i, j | 0 <= i < j < |r| ensures r[i] != r[j] {
        assert r[j] == rest[j-1] && rest[j-1] in Elements(rest);
        if i > 0 { assert r[i] == rest[i-1]; }
      }
      forall x | x in r ensures x in nodes - done { assert x == m || x in Elements(rest); }
      forall i | 0 <= i < |r| ensures DependsOnlyOn(deps, r[i], done + Elements(r[..i])) {
        if i > 0 {
          assert r[i] == rest[i-1] && r[..i] == [m] + rest[..i-1];
          assert done + Elements(r[..i]) == done + {m} + Elements(rest[..i-1]);
        }
      }
    }
  }

  /** Of two elements that are ready together the one spelled first is emitted first. */
  lemma {:induction false} ReadyBySpelling(nodes: set<string>, deps: set<(string, string)>, done: set<string>, i: nat,
                                           j: nat)
    requires i < j < |Emit(nodes, deps, done)|
    requires DependsOnlyOn(deps, Emit(nodes, deps, done)[j], done + Elements(Emit(nodes, deps, done)[..i]))
    ensures SpelledBefore(Emit(nodes, deps, done)[i], Emit(nodes, deps, done)[j])
    decreases i
  {
    var r := Emit(nodes, deps, done);
    var m := Least(Ready(nodes, deps, done));
    var rest := Emit(nodes, deps, done + {m});
    assert r == [m] + rest;
    EmitIsSound(nodes, deps, done);
    if i == 0 {
      assert done + Elements(r[..0]) == done;
      assert r[j] in Elements(r) && r[j] != r[0];
      LessIffSpelledBefore(r[0], r[j]);
    } else {
      assert r[..i] == [m] + rest[..i-1];
      assert done + Elements(r[..i]) == done + {m} + Elements(rest[..i-1]);
      ReadyBySpelling(nodes, deps, done + {m}, i - 1, j - 1);
    }
  }

  /** Where emission stops nothing is ready. */
  lemma {:induction false} EmitStopsStuck(nodes: set<string>, deps: set<(string, string)>, done: set<string>)
    ensures Ready(nodes, deps, done + Elements(Emit(nodes, deps, done))) == {}
    decreases nodes - done
  {
    var ready := Ready(nodes, deps, done);
    if ready == {} {
      assert done + Elements([]) == done;
    } else {
      var m := Least(ready);
      EmitStopsStuck(nodes, deps, done + {m});
      var rest := Emit(nodes, deps, done + {m});
      assert done + {m} + Elements(rest) == done + Elements([m] + rest);
    }
  }

  lemma PrefixElements(order: seq<string>, i: nat, k: nat)
    requires i <= k <= |order|
    ensures Elements(order[..i]) <= Elements(order[..k])
  {
    assert order[..k] == order[..i] + order[i..k];
  }

  lemma PrefixClosed(order: seq<string>, deps: set<(string, string)>, k: nat)
    requires DependenciesFirst(order, deps, {}) && k <= |order|
    ensures ClosedUnder(deps, Elements(order[..k]))
  {
    hide DependsOnlyOn;
    forall a | a in Elements(order[..k]) ensures DependsOnlyOn(deps, a, Elements(order[..k])) {
      var i :| 0 <= i < k && order[i] == a;
      PrefixElements(order, i, k);
      WiderDependencies(deps, a, {} + Elements(order[..i]), Elements(order[..k]));
    }
    ClosedWhenDependenciesInside(deps, Elements(order[..k]));
  }

  lemma WiderDependencies(deps: set<(string, string)>, n: string, s: set<string>, t: set<string>)
    requires DependsOnlyOn(deps, n, s) && s <= t
    ensures DependsOnlyOn(deps, n, t)
  {
  }

  lemma ClosedWhenDependenciesInside(deps: set<(string, string)>, s: set<string>)
    requires forall a :: a in s ==> DependsOnlyOn(deps, a, s)
    ensures ClosedUnder(deps, s)
  {
  }

  /** No dependencies-first listing of a set holds a node of a cycle. */
  lemma OrderedIsNotOnCycle(order: seq<string>, deps: set<(string, string)>, a: string, b: string)
    requires NoDuplicates(order) && DependenciesFirst(order, deps, {})
    requires (a, b) in deps && Reaches(deps, b, a)
    ensures a !in order
  {
    if a in order {
      var k :| 0 <= k < |order| && order[k] == a;
      PrefixClosed(order, deps, k);
      assert DependsOnlyOn(deps, order[k], {} + Elements(order[..k]));
      assert b in Elements(order[..k]);
      ClosedReaches(deps, Elements(order[..k]), b, a);
    }
  }

  /** Emission reaches every node exactly when the dependencies have no cycle. */
  lemma CompleteIffAcyclic(nodes: set<string>, deps: set<(string, string)>)
    requires forall c, d :: (c, d) in deps ==> c in nodes && d in nodes
    ensures Elements(Emit(nodes, deps, {})) == nodes <==> !Cyclic(deps)
    ensures Topological(Emit(nodes, deps, {}), nodes, deps) <==> !Cyclic(deps)
  {
    var r := Emit(nodes, deps, {});
    EmitIsSound(nodes, deps, {});
    EmitStopsStuck(nodes, deps, {});
    if Cyclic(deps) {
      var a, b :| (a, b) in deps && Reaches(deps, b, a);
      OrderedIsNotOnCycle(r, deps, a, b);
      assert a in nodes && a !in Elements(r);
    } else if Elements(r) != nodes {
      var stuck := nodes - Elements(r);
      assert {} + Elements(r) == Elements(r);
      assert stuck != {};
      forall n | n in stuck ensures HasSuccessorIn(deps, stuck, n) {
        assert n !in Ready(nodes, deps, Elements(r));
      }
      EveryNodeHasSuccessor(deps, stuck);
    }
  }

  // ----- Least among all topological orders ------------------------------------------------------

  ghost predicate DiffersFirstAt(a: seq<string>, b: seq<string>, k: nat) {
    k < |a| && k < |b| && a[..k] == b[..k] && Less(a[k], b[k])
  }

  /** Lexicographic order on listings of identifiers. */
  ghost predicate LexBefore(a: seq<string>, b: seq<string>) {
    exists k: nat :: DiffersFirstAt(a, b, k)
  }

  lemma LexBeforeCons(m: string, a: seq<string>, b: seq<string>)
    requires LexBefore(a, b)
    ensures LexBefore([m] + a, [m] + b)
  {
    var k: nat :| DiffersFirstAt(a, b, k);
    assert ([m] + a)[..k+1] == [m] + a[..k] && ([m] + b)[..k+1] == [m] + b[..k];
    assert DiffersFirstAt([m] + a, [m] + b, k + 1);
  }

  lemma TailElements(t: seq<string>)
    requires NoDuplicates(t) && t != []
    ensures Elements(t[1..]) == Elements(t) - {t[0]} && NoDuplicates(t[1..])
  {
    forall x ensures x in t[1..] <==> x in t && x != t[0] {
      if x in t[1..] { var i :| 0 <= i < |t[1..]| && t[1..][i] == x; assert t[i+1] == x; }
      if x in t && x != t[0] { var i :| 0 <= i < |t| && t[i] == x; assert t[1..][i-1] == x; }
    }
  }

  lemma {:induction false} EmitIsLeast(nodes: set<string>, deps: set<(string, string)>, done: set<string>,
                                       t: seq<string>)
    requires NoDuplicates(t) && Elements(t) == nodes - done && done <= nodes && DependenciesFirst(t, deps, done)
    ensures t == Emit(nodes, deps, done) || LexBefore(Emit(nodes, deps, done), t)
    decreases nodes - done
  {
    var ready := Ready(nodes, deps, done);
    var r := Emit(nodes, deps, done);
    if t == [] {
      assert nodes - done == {};
      assert ready == {};
    } else {
      assert t[0] in Elements(t) && done + Elements(t[..0]) == done;
      assert t[0] in ready;
      var m := Least(ready);
      if t[0] != m {
        assert DiffersFirstAt(r, t, 0);
      } else {
        var u := t[1..];
        assert t == [m] + u;
        TailElements(t);
        assert Elements(u) == nodes - (done + {m});
        forall i | 0 <= i < |u| ensures DependsOnlyOn(deps, u[i], done + {m} + Elements(u[..i])) {
          assert t[i+1] == u[i] && t[..i+1] == [m] + u[..i];
          assert done + {m} + Elements(u[..i]) == done + Elements(t[..i+1]);
        }
        EmitIsLeast(nodes, deps, done + {m}, u);
        if u != Emit(nodes, deps, done + {m}) { LexBeforeCons(m, Emit(nodes, deps, done + {m}), u); }
      }
    }
  }

  lemma LexBeforeIsAsymmetric(a: seq<string>, b: seq<string>)
    requires LexBefore(a, b)
    ensures !LexBefore(b, a) && a != b
  {
    var k: nat :| DiffersFirstAt(a, b, k);
    LessIrreflexive(a[k]);
    forall l: nat ensures !DiffersFirstAt(b, a, l) { FirstDifferenceOneWay(a, b, k, l); }
  }

  lemma FirstDifferenceOneWay(a: seq<string>, b: seq<string>, k: nat, l: nat)
    requires DiffersFirstAt(a, b, k)
    ensures !DiffersFirstAt(b, a, l)
  {
    LessAsymmetric(a[k], b[k]);
    if l < k && l < |a| && l < |b| {
      assert a[..k][l] == b[..k][l];
      LessIrreflexive(a[l]);
    }
    if k < l && l < |a| && l < |b| {
      assert a[..l][k] == a[k] && b[..l][k] == b[k];
      LessIrreflexive(a[k]);
    }
  }

  /**
   * Without a cycle, Emit is the lexicographically least topological order, and the only one
   * that comes before every other.
   */
  lemma EmitIsTheLeastTopologicalOrder(nodes: set<string>, deps: set<(string, string)>, t: seq<string>)
    requires forall c, d :: (c, d) in deps ==> c in nodes && d in nodes
    requires !Cyclic(deps) && Topological(t, nodes, deps)
    ensures Topological(Emit(nodes, deps, {}), nodes, deps)
    ensures t == Emit(nodes, deps, {}) || (LexBefore(Emit(nodes, deps, {}), t) && !LexBefore(t, Emit(nodes, deps, {})))
  {
    CompleteIffAcyclic(nodes, deps);
    EmitIsLeast(nodes, deps, {}, t);
    if LexBefore(Emit(nodes, deps, {}), t) { LexBeforeIsAsymmetric(Emit(nodes, deps, {}), t); }
  }
}
