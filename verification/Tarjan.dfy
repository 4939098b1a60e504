/** Strongly connected components of a provider graph (compiler/graph/build.go). */
module Tarjan {
  import opened Digraph
  import opened Sorting
  import StringOrder

  // ----- Graph given by adjacency lists ----------------------------------------------------------

  ghost predicate ValidGraph(adjacency: seq<seq<nat>>) {
    forall v, k :: 0 <= v < |adjacency| && 0 <= k < |adjacency[v]| ==> adjacency[v][k] < |adjacency|
  }

  ghost function EdgeSet(adjacency: seq<seq<nat>>): (e: set<(nat, nat)>)
    ensures forall v: nat, w: nat :: (v, w) in e <==> v < |adjacency| && w in adjacency[v]
  {
    set v: nat, w: nat | v < |adjacency| && w in adjacency[v] :: (v, w)
  }

  // ----- Search state ----------------------------------------------------------------------------

  /** What one moment of the search records; index is -1 before a node is visited. */
  datatype Search = Search(index: seq<int>, stack: seq<nat>, next: nat, components: seq<seq<nat>>)

  ghost function Index(s: Search, v: nat): int { if v < |s.index| then s.index[v] else -1 }

  ghost function Seen(s: Search): set<nat> { set v: nat | v < |s.index| && s.index[v] != -1 }

  ghost function Stacked(s: Search): set<nat> { set v: nat | v in s.stack }

  ghost function Finished(s: Search): set<nat> { Seen(s) - Stacked(s) }

  ghost predicate Shape(s: Search) {
    && (forall v: nat :: -1 <= Index(s, v) < s.next)
    && Stacked(s) <= Seen(s)
    && (forall i, j :: 0 <= i < j < |s.stack| ==> Index(s, s.stack[i]) < Index(s, s.stack[j]))
  }

  /** Some open node, no later than v, that v reaches. */
  ghost predicate Anchored(edges: set<(nat, nat)>, s: Search, open: set<nat>, v: nat) {
    exists g :: g in open && Index(s, g) <= Index(s, v) && Reaches(edges, v, g)
  }

  ghost predicate AllAnchored(edges: set<(nat, nat)>, s: Search, open: set<nat>) {
    forall v {:trigger Anchored(edges, s, open, v)} :: v in Stacked(s) ==> Anchored(edges, s, open, v)
  }

  ghost predicate OpenReachLater(edges: set<(nat, nat)>, s: Search, open: set<nat>) {
    forall g, v :: g in open && v in Stacked(s) && Index(s, g) <= Index(s, v) ==> Reaches(edges, g, v)
  }

  /** Every successor of a node of `from` lies in `to`. */
  ghost predicate SuccessorsIn(edges: set<(nat, nat)>, from: set<nat>, to: set<nat>) {
    forall v, w :: (v, w) in edges && v in from ==> w in to
  }

  ghost predicate IsComponent(edges: set<(nat, nat)>, c: seq<nat>) {
    && c != [] && NoDuplicates(c)
    && (forall v, w :: v in c ==> (w in c <==> Mutual(edges, v, w)))
  }

  ghost predicate InSome(components: seq<seq<nat>>, v: nat) {
    exists i :: 0 <= i < |components| && v in components[i]
  }

  ghost predicate Disjoint(components: seq<seq<nat>>) {
    forall i, j, v :: 0 <= i < j < |components| && v in components[i] ==> v !in components[j]
  }

  /** The components are exactly the strongly connected classes of the nodes covered. */
  ghost predicate Partition(edges: set<(nat, nat)>, components: seq<seq<nat>>, covered: set<nat>) {
    && (forall i :: 0 <= i < |components| ==> IsComponent(edges, components[i]))
    && (forall v :: v in covered <==> InSome(components, v))
    && Disjoint(components)
  }

  /** The invariant while the nodes of `open` are being visited. */
  ghost predicate Consistent(edges: set<(nat, nat)>, s: Search, open: set<nat>) {
    && Shape(s)
    && open <= Stacked(s)
    && SuccessorsIn(edges, Seen(s) - open, Seen(s))
    && SuccessorsIn(edges, Finished(s), Finished(s))
    && AllAnchored(edges, s, open)
    && OpenReachLater(edges, s, open)
    && Partition(edges, s.components, Finished(s))
  }

  function Push(s: Search, v: nat): Search
    requires v < |s.index|
  {
    Search(s.index[v := s.next], s.stack + [v], s.next + 1, s.components)
  }

  lemma PushFacts(s: Search, v: nat)
    requires Shape(s) && v < |s.index| && s.index[v] == -1
    ensures Shape(Push(s, v)) && v !in Stacked(s)
    ensures forall w: nat :: Index(Push(s, v), w) == if w == v then s.next else Index(s, w)
    ensures Stacked(Push(s, v)) == Stacked(s) + {v}
    ensures Seen(Push(s, v)) == Seen(s) + {v}
    ensures Finished(Push(s, v)) == Finished(s)
    ensures forall w :: w in Stacked(s) ==> w in Seen(s) && Index(s, w) < s.next
  {
    var t := Push(s, v);
    forall w: nat ensures Index(t, w) == if w == v then s.next else Index(s, w) {}
    assert t.stack[|s.stack|] == v;
    assert forall w :: w in t.stack <==> w in s.stack || w == v;
    assert v !in Seen(s);
    assert Seen(t) == Seen(s) + {v} && Stacked(t) == Stacked(s) + {v};
    forall i, j | 0 <= i < j < |t.stack| ensures Index(t, t.stack[i]) < Index(t, t.stack[j]) {
      assert t.stack[i] == s.stack[i] && s.stack[i] in Stacked(s);
      if j < |s.stack| { assert t.stack[j] == s.stack[j] && s.stack[j] in Stacked(s); }
    }
  }

  lemma PushKeepsConsistent(e: set<(nat, nat)>, s: Search, open: set<nat>, v: nat)
    requires Consistent(e, s, open) && v < |s.index| && s.index[v] == -1
    requires forall g :: g in open ==> Reaches(e, g, v)
    ensures Consistent(e, Push(s, v), open + {v})
  {
    var t := Push(s, v);
    PushFacts(s, v);
    ReachesSelf(e, v);
    hide Partition, Reaches, Shape;
    assert Seen(t) - (open + {v}) == Seen(s) - open;
    forall w | w in Stacked(t) ensures Anchored(e, t, open + {v}, w) {
      if w != v {
        assert Anchored(e, s, open, w);
        var g :| g in open && Index(s, g) <= Index(s, w) && Reaches(e, w, g);
        assert g in open + {v} && Index(t, g) <= Index(t, w);
      } else {
        assert v in open + {v} && Index(t, v) <= Index(t, w);
      }
    }
  }

  lemma CloseAnchored(e: set<(nat, nat)>, s: Search, open: set<nat>, v: nat, z: nat)
    requires AllAnchored(e, s, open + {v})
    requires z in Stacked(s) && Index(s, z) < Index(s, v) && Reaches(e, v, z)
    ensures AllAnchored(e, s, open)
  {
    hide Reaches, Index;
    assert Anchored(e, s, open + {v}, z);
    var h :| h in open + {v} && Index(s, h) <= Index(s, z) && Reaches(e, z, h);
    forall w | w in Stacked(s) ensures Anchored(e, s, open, w) {
      assert Anchored(e, s, open + {v}, w);
      var g :| g in open + {v} && Index(s, g) <= Index(s, w) && Reaches(e, w, g);
      if g == v {
        ReachesTransitive(e, w, v, z);
        ReachesTransitive(e, w, z, h);
        assert h in open;
      }
    }
  }

  /** A node that reaches an earlier stacked node can close without leaving the stack. */
  lemma CloseKeepsConsistent(e: set<(nat, nat)>, s: Search, open: set<nat>, v: nat, z: nat)
    requires Consistent(e, s, open + {v})
    requires forall w :: (v, w) in e ==> w in Seen(s)
    requires z in Stacked(s) && Index(s, z) < Index(s, v) && Reaches(e, v, z)
    ensures Consistent(e, s, open)
  {
    CloseAnchored(e, s, open, v, z);
    hide Partition, Reaches, Shape, AllAnchored;
  }

  /** The nodes stacked from position k on. */
  ghost function Block(s: Search, k: nat): set<nat>
    requires k <= |s.stack|
  {
    set v: nat | v in s.stack[k..]
  }

  lemma BlockFacts(s: Search, k: nat)
    requires Shape(s) && k <= |s.stack|
    ensures Block(s, k) <= Stacked(s) && Block(s, k) !! (set v: nat | v in s.stack[..k])
    ensures Stacked(s) == Block(s, k) + (set v: nat | v in s.stack[..k])
    ensures forall y :: k < |s.stack| && y in Block(s, k) ==> Index(s, s.stack[k]) <= Index(s, y)
    ensures forall z :: k < |s.stack| && z in s.stack[..k] ==> Index(s, z) < Index(s, s.stack[k])
    ensures NoDuplicates(s.stack)
  {
    forall v | v in Stacked(s) ensures v in Block(s, k) || v in s.stack[..k] {
      var i :| 0 <= i < |s.stack| && s.stack[i] == v;
      if i >= k { assert s.stack[k..][i-k] == v; } else { assert s.stack[..k][i] == v; }
    }
    forall y | y in Block(s, k)
      ensures y in Stacked(s) && y !in s.stack[..k] && (k < |s.stack| ==> Index(s, s.stack[k]) <= Index(s, y))
    {
      var i :| 0 <= i < |s.stack[k..]| && s.stack[k..][i] == y;
      assert y == s.stack[k+i];
    }
  }

  /** Nothing leaves a block without a crossing edge, apart from into finished nodes. */
  lemma BlockClosed(e: set<(nat, nat)>, s: Search, open: set<nat>, k: nat)
    requires k < |s.stack| && Consistent(e, s, open + {s.stack[k]})
    requires forall g :: g in open ==> Index(s, g) < Index(s, s.stack[k])
    requires forall w :: (s.stack[k], w) in e ==> w in Seen(s)
    requires forall y, z :: y in Block(s, k) && z in s.stack[..k] ==> (y, z) !in e
    ensures ClosedUnder(e, Block(s, k) + Finished(s))
  {
    hide Reaches, Partition;
    BlockFacts(s, k);
    forall u, w | (u, w) in e && u in Block(s, k) + Finished(s) ensures w in Block(s, k) + Finished(s) {
      if u !in Finished(s) {
        assert u == s.stack[k] || u !in open + {s.stack[k]};
        assert u in Seen(s);
        assert w in Seen(s);
      }
    }
  }

  lemma BlockReachesRoot(e: set<(nat, nat)>, s: Search, open: set<nat>, k: nat, y: nat)
    requires k < |s.stack| && Consistent(e, s, open + {s.stack[k]}) && y in Block(s, k)
    requires forall g :: g in open ==> Index(s, g) < Index(s, s.stack[k])
    requires ClosedUnder(e, Block(s, k) + Finished(s))
    ensures Reaches(e, y, s.stack[k])
  {
    hide Reaches, Partition;
    BlockFacts(s, k);
    assert Anchored(e, s, open + {s.stack[k]}, y);
    var g :| g in open + {s.stack[k]} && Index(s, g) <= Index(s, y) && Reaches(e, y, g);
    ClosedReaches(e, Block(s, k) + Finished(s), y, g);
  }

  lemma BlockIsComponent(e: set<(nat, nat)>, s: Search, open: set<nat>, k: nat, c: seq<nat>)
    requires k < |s.stack| && Consistent(e, s, open + {s.stack[k]})
    requires forall g :: g in open ==> Index(s, g) < Index(s, s.stack[k])
    requires ClosedUnder(e, Block(s, k) + Finished(s))
    requires multiset(c) == multiset(s.stack[k..])
    ensures IsComponent(e, c)
    ensures forall v :: v in c <==> v in Block(s, k)
  {
    hide Partition;
    var v := s.stack[k];
    BlockFacts(s, k);
    SameElements(c, s.stack[k..]);
    NoDuplicatesPermuted(c, s.stack[k..]);
    assert v in s.stack[k..] by { assert s.stack[k..][0] == v; }
    forall y, w | y in c ensures w in c <==> Mutual(e, y, w) {
      hide Reaches;
      BlockReachesRoot(e, s, open, k, y);
      if w in c {
        BlockReachesRoot(e, s, open, k, w);
        ReachesTransitive(e, y, v, w);
        ReachesTransitive(e, w, v, y);
      }
      if Mutual(e, y, w) {
        ClosedReaches(e, Block(s, k) + Finished(s), y, w);
        if w in Finished(s) { ClosedReaches(e, Finished(s), w, y); }
      }
    }
  }

  function Pop(s: Search, k: nat, c: seq<nat>): Search
    requires k <= |s.stack|
  {
    Search(s.index, s.stack[..k], s.next, s.components + [c])
  }

  lemma AddComponent(e: set<(nat, nat)>, components: seq<seq<nat>>, covered: set<nat>, c: seq<nat>)
    requires Partition(e, components, covered) && IsComponent(e, c)
    requires forall v :: v in c ==> v !in covered
    ensures Partition(e, components + [c], covered + set v | v in c)
  {
    hide Reaches, IsComponent;
    var all := components + [c];
    forall v ensures v in covered + (set v | v in c) <==> InSome(all, v) {
      if InSome(components, v) {
        var i :| 0 <= i < |components| && v in components[i];
        assert v in all[i];
      }
      if v in c { assert v in all[|components|]; }
      if InSome(all, v) {
        var i :| 0 <= i < |all| && v in all[i];
        if i < |components| { assert v in components[i]; }
      }
    }
    forall i, j, v | 0 <= i < j < |all| && v in all[i] ensures v !in all[j] {
      assert v in components[i] && InSome(components, v);
    }
  }

  /** A node with no crossing edge above it closes a whole component. */
  lemma PopKeepsConsistent(e: set<(nat, nat)>, s: Search, open: set<nat>, k: nat, c: seq<nat>)
    requires k < |s.stack| && Consistent(e, s, open + {s.stack[k]})
    requires forall g :: g in open ==> Index(s, g) < Index(s, s.stack[k])
    requires forall w :: (s.stack[k], w) in e ==> w in Seen(s)
    requires forall y, z :: y in Block(s, k) && z in s.stack[..k] ==> (y, z) !in e
    requires multiset(c) == multiset(s.stack[k..])
    ensures Consistent(e, Pop(s, k, c), open)
    ensures Finished(Pop(s, k, c)) == Finished(s) + Block(s, k)
  {
    hide Reaches;
    var v := s.stack[k];
    var t := Pop(s, k, c);
    BlockFacts(s, k);
    BlockClosed(e, s, open, k);
    BlockIsComponent(e, s, open, k, c);
    AddComponent(e, s.components, Finished(s), c);
    hide Partition;
    assert forall w: nat :: Index(t, w) == Index(s, w);
    assert Seen(t) == Seen(s) && Finished(t) == Finished(s) + Block(s, k);
    assert (set w | w in c) == Block(s, k);
    forall w | w in Stacked(t) ensures Anchored(e, t, open, w) {
      assert Anchored(e, s, open + {v}, w);
      var g :| g in open + {v} && Index(s, g) <= Index(s, w) && Reaches(e, w, g);
      assert g in open && Index(t, g) <= Index(t, w);
    }
    assert SuccessorsIn(e, Seen(t) - open, Seen(t));
    assert SuccessorsIn(e, Finished(t), Finished(t));
  }

  // ----- What one visit guarantees ---------------------------------------------------------------

  /** `after` only adds to `before`: the stack grows, recorded indices stay. */
  ghost predicate Extends(before: Search, after: Search) {
    && before.stack <= after.stack
    && |before.index| == |after.index|
    && (forall v :: v in Seen(before) ==> Index(after, v) == Index(before, v))
    && Seen(before) <= Seen(after)
    && Finished(before) <= Finished(after)
    && before.next <= after.next
  }

  ghost predicate LowWitness(e: set<(nat, nat)>, s: Search, v: nat, low: int) {
    exists z :: z in Stacked(s) && Index(s, z) == low && Reaches(e, v, z)
  }

  /** No edge from the block at k into the stack below it undercuts `low`. */
  ghost predicate CrossingBound(e: set<(nat, nat)>, s: Search, k: nat, from: set<nat>, low: int)
    requires k <= |s.stack|
  {
    forall y, z :: y in from && z in s.stack[..k] && (y, z) in e ==> low <= Index(s, z)
  }

  ghost predicate Visited(e: set<(nat, nat)>, before: Search, after: Search, v: nat, low: int) {
    && Extends(before, after) && before.next <= Index(after, v)
    && (if |after.stack| == |before.stack| then low == Index(after, v)
        else after.stack[|before.stack|] == v && LowWitness(e, before, v, low))
    && CrossingBound(e, after, |before.stack|, Block(after, |before.stack|), low)
  }

  lemma ExtendsTransitive(a: Search, b: Search, c: Search)
    requires Extends(a, b) && Extends(b, c)
    ensures Extends(a, c)
  {
  }

  lemma BlockSplit(before: Search, after: Search, k: nat)
    requires k <= |before.stack| && before.stack <= after.stack
    ensures Block(after, k) == Block(before, k) + Block(after, |before.stack|)
    ensures after.stack[..k] == before.stack[..k]
  {
    assert after.stack[k..] == before.stack[k..] + after.stack[|before.stack|..];
  }

  /** The state of a visit to `node`, opened on top of `before`, once i successors are done. */
  ghost predicate Progress(e: set<(nat, nat)>, before: Search, s: Search, node: nat, low: int, dependencies: seq<nat>,
                           i: nat) {
    var k := |before.stack|;
    && Extends(before, s) && before.next <= Index(s, node)
    && k < |s.stack| && s.stack[k] == node
    && low <= Index(s, node) && LowWitness(e, s, node, low)
    && CrossingBound(e, s, k, Block(s, k) - {node}, low)
    && i <= |dependencies|
    && (forall j :: 0 <= j < i ==> dependencies[j] in Seen(s))
    && (forall j :: 0 <= j < i && dependencies[j] in s.stack[..k] ==> low <= Index(s, dependencies[j]))
  }

  lemma ProgressStarts(e: set<(nat, nat)>, before: Search, node: nat, dependencies: seq<nat>)
    requires Shape(before) && node < |before.index| && before.index[node] == -1
    ensures Progress(e, before, Push(before, node), node, before.next, dependencies, 0)
  {
    var s := Push(before, node);
    PushFacts(before, node);
    ReachesSelf(e, node);
    assert node in Stacked(s) && Index(s, node) == before.next;
    assert s.stack[|before.stack|..] == [node];
    assert Block(s, |before.stack|) == {node};
  }

  lemma LowWitnessGrows(e: set<(nat, nat)>, a: Search, b: Search, v: nat, low: int)
    requires LowWitness(e, a, v, low) && Extends(a, b) && Stacked(a) <= Seen(a)
    ensures LowWitness(e, b, v, low)
  {
    hide Reaches;
    var z :| z in Stacked(a) && Index(a, z) == low && Reaches(e, v, z);
    assert z in Stacked(b) && Index(b, z) == low;
  }

  lemma LowAfterVisit(e: set<(nat, nat)>, s: Search, t: Search, node: nat, low: int, dependency: nat, below: int)
    requires Shape(s) && Shape(t) && (node, dependency) in e && low < s.next
    requires LowWitness(e, s, node, low) && Visited(e, s, t, dependency, below)
    ensures LowWitness(e, t, node, if below < low then below else low)
  {
    hide Reaches;
    if below < low {
      LowWitnessGrows(e, s, t, dependency, below);
      var z :| z in Stacked(t) && Index(t, z) == below && Reaches(e, dependency, z);
      ReachesEdge(e, node, dependency);
      ReachesTransitive(e, node, dependency, z);
    } else {
      LowWitnessGrows(e, s, t, node, low);
    }
  }

  lemma CrossingAfterVisit(e: set<(nat, nat)>, s: Search, t: Search, k: nat, node: nat, low: int, below: int)
    requires k <= |s.stack| <= |t.stack| && Extends(s, t) && Stacked(s) <= Seen(s) && node in Stacked(s)
    requires CrossingBound(e, s, k, Block(s, k) - {node}, low)
    requires CrossingBound(e, t, |s.stack|, Block(t, |s.stack|), below)
    ensures CrossingBound(e, t, k, Block(t, k) - {node}, if below < low then below else low)
  {
    BlockSplit(s, t, k);
    forall y, z | y in Block(t, k) - {node} && z in t.stack[..k] && (y, z) in e
      ensures (if below < low then below else low) <= Index(t, z)
    {
      assert z in s.stack[..k] && z in Stacked(s) && Index(t, z) == Index(s, z);
      if y in Block(t, |s.stack|) {
        assert t.stack[..|s.stack|] == s.stack;
        assert z in t.stack[..|s.stack|];
      }
    }
  }

  lemma SeenAfterVisit(before: Search, s: Search, t: Search, low: int, low': int, dependencies: seq<nat>, i: nat)
    requires Extends(before, s) && Extends(s, t) && Stacked(s) <= Seen(s) && i < |dependencies|
    requires forall j :: 0 <= j < i ==> dependencies[j] in Seen(s)
    requires forall j :: 0 <= j < i && dependencies[j] in before.stack ==> low <= Index(s, dependencies[j])
    requires dependencies[i] in Seen(t) && dependencies[i] !in Seen(s) && low' <= low
    ensures forall j :: 0 <= j < i + 1 ==> dependencies[j] in Seen(t)
    ensures forall j :: 0 <= j < i + 1 && dependencies[j] in before.stack ==> low' <= Index(t, dependencies[j])
  {
    forall v | v in before.stack ensures v in Stacked(s) {
      assert v in s.stack[..|before.stack|];
    }
  }

  lemma ProgressAfterVisit(e: set<(nat, nat)>, before: Search, s: Search, t: Search, node: nat, low: int, below: int,
                           dependencies: seq<nat>, i: nat)
    requires Shape(s) && Shape(t) && i < |dependencies| && (node, dependencies[i]) in e
    requires Progress(e, before, s, node, low, dependencies, i)
    requires dependencies[i] !in Seen(s) && Visited(e, s, t, dependencies[i], below)
    ensures Progress(e, before, t, node, if below < low then below else low, dependencies, i + 1)
  {
    hide Reaches;
    var k := |before.stack|;
    ExtendsTransitive(before, s, t);
    assert s.stack[..k] == before.stack && t.stack[..k] == before.stack;
    assert node in Stacked(s);
    LowAfterVisit(e, s, t, node, low, dependencies[i], below);
    CrossingAfterVisit(e, s, t, k, node, low, below);
    SeenAfterVisit(before, s, t, low, if below < low then below else low, dependencies, i);
    hide LowWitness, CrossingBound, Block, Shape;
  }

  lemma ProgressOverSeen(e: set<(nat, nat)>, before: Search, s: Search, node: nat, low: int, dependencies: seq<nat>,
                         i: nat)
    requires Shape(s) && i < |dependencies| && (node, dependencies[i]) in e
    requires Progress(e, before, s, node, low, dependencies, i)
    requires dependencies[i] in Seen(s)
    ensures var dependency := dependencies[i];
            Progress(e, before, s, node,
                     if dependency in s.stack && Index(s, dependency) < low then Index(s, dependency) else low,
                     dependencies, i + 1)
  {
    var dependency := dependencies[i];
    if dependency in s.stack && Index(s, dependency) < low {
      ReachesEdge(e, node, dependency);
      assert dependency in Stacked(s);
    }
    hide Reaches;
  }

  lemma CrossingEnds(e: set<(nat, nat)>, s: Search, k: nat, node: nat, low: int, dependencies: seq<nat>)
    requires k <= |s.stack| && CrossingBound(e, s, k, Block(s, k) - {node}, low)
    requires forall j :: 0 <= j < |dependencies| && dependencies[j] in s.stack[..k] ==> low <= Index(s, dependencies[j])
    requires forall w :: (node, w) in e ==> w in dependencies
    ensures CrossingBound(e, s, k, Block(s, k), low)
  {
    hide Index;
    forall y, z | y in Block(s, k) && z in s.stack[..k] && (y, z) in e ensures low <= Index(s, z) {
      if y == node { var j :| 0 <= j < |dependencies| && dependencies[j] == z; }
    }
  }

  lemma LowBefore(e: set<(nat, nat)>, before: Search, s: Search, node: nat, low: int)
    requires Shape(before) && Shape(s) && Extends(before, s) && |before.stack| < |s.stack|
    requires s.stack[|before.stack|] == node
    requires LowWitness(e, s, node, low) && low < Index(s, node)
    ensures LowWitness(e, before, node, low)
  {
    BlockFacts(s, |before.stack|);
    StackedSeen(before);
    hide Reaches, Shape, Seen;
    var z :| z in Stacked(s) && Index(s, z) == low && Reaches(e, node, z);
    assert s.stack[..|before.stack|] == before.stack;
    assert z in Stacked(before);
    assert z in Seen(before);
  }

  lemma StackedSeen(s: Search)
    requires Shape(s)
    ensures Stacked(s) <= Seen(s)
  {
  }

  /** After the last successor: the visit's own promise, and what is needed to close or pop. */
  lemma ProgressEnds(e: set<(nat, nat)>, before: Search, s: Search, node: nat, low: int, dependencies: seq<nat>)
    requires Shape(before) && Shape(s) && Progress(e, before, s, node, low, dependencies, |dependencies|)
    requires forall w :: (node, w) in e ==> w in dependencies
    ensures forall w :: (node, w) in e ==> w in Seen(s)
    ensures CrossingBound(e, s, |before.stack|, Block(s, |before.stack|), low)
    ensures low < Index(s, node) ==> LowWitness(e, before, node, low)
  {
    hide Reaches, LowWitness, CrossingBound, Extends, Block, Shape, Seen, Index;
    CrossingEnds(e, s, |before.stack|, node, low, dependencies);
    if low < Index(s, node) { LowBefore(e, before, s, node, low); }
  }

  lemma VisitKeptStacked(e: set<(nat, nat)>, before: Search, s: Search, node: nat, low: int, dependencies: seq<nat>)
    requires Shape(before) && Shape(s) && Progress(e, before, s, node, low, dependencies, |dependencies|)
    requires forall w :: (node, w) in e ==> w in dependencies
    requires low != Index(s, node)
    ensures Visited(e, before, s, node, low)
  {
    ProgressEnds(e, before, s, node, low, dependencies);
    hide LowWitness, CrossingBound;
  }

  lemma CloseHelper(e: set<(nat, nat)>, before: Search, s: Search, open: set<nat>, node: nat, low: int)
    requires Consistent(e, s, open + {node}) && Extends(before, s) && Shape(before)
    requires forall w :: (node, w) in e ==> w in Seen(s)
    requires LowWitness(e, before, node, low) && low < Index(s, node)
    ensures Consistent(e, s, open)
  {
    hide Reaches, Consistent;
    var z :| z in Stacked(before) && Index(before, z) == low && Reaches(e, node, z);
    CloseKeepsConsistent(e, s, open, node, z);
  }

  lemma VisitPopped(e: set<(nat, nat)>, before: Search, s: Search, node: nat, dependencies: seq<nat>, c: seq<nat>)
    requires Shape(before) && Shape(s)
    requires Progress(e, before, s, node, Index(s, node), dependencies, |dependencies|)
    requires forall w :: (node, w) in e ==> w in dependencies
    ensures Visited(e, before, Pop(s, |before.stack|, c), node, Index(s, node))
    ensures forall y, z :: y in Block(s, |before.stack|) && z in s.stack[..|before.stack|] ==> (y, z) !in e
  {
    hide Reaches, LowWitness;
    var k := |before.stack|;
    var t := Pop(s, k, c);
    ProgressEnds(e, before, s, node, Index(s, node), dependencies);
    BlockFacts(s, k);
    assert t.stack == before.stack;
    assert Block(t, k) == {};
    assert forall v: nat :: Index(t, v) == Index(s, v);
    assert Seen(t) == Seen(s);
  }

  /** The flags that mirror stack membership. */
  ghost predicate Marks(onStack: seq<bool>, stack: seq<nat>) {
    forall v :: 0 <= v < |onStack| ==> (onStack[v] <==> v in stack)
  }

  lemma UnmarkLast(onStack: seq<bool>, stack: seq<nat>)
    requires Marks(onStack, stack) && NoDuplicates(stack) && stack != [] && stack[|stack|-1] < |onStack|
    ensures Marks(onStack[stack[|stack|-1] := false], stack[..|stack|-1])
  {
    var last, rest := stack[|stack|-1], stack[..|stack|-1];
    assert stack == rest + [last];
    assert last !in rest;
  }

  lemma OpenReachSuccessor(e: set<(nat, nat)>, open: set<nat>, node: nat, dependency: nat)
    requires (node, dependency) in e && forall g :: g in open ==> Reaches(e, g, node)
    ensures forall g :: g in open + {node} ==> Reaches(e, g, dependency)
  {
    ReachesEdge(e, node, dependency);
    forall g | g in open ensures Reaches(e, g, dependency) { ReachesThenEdge(e, g, node, dependency); }
  }

  lemma SearchFacts(e: set<(nat, nat)>, s: Search, open: set<nat>)
    requires Consistent(e, s, open)
    ensures Shape(s) && open <= Stacked(s) && Stacked(s) <= Seen(s)
    ensures forall v :: v in s.stack ==> v < |s.index|
  {
    forall v | v in s.stack ensures v < |s.index| { assert v in Stacked(s); }
  }

  lemma ProgressFacts(e: set<(nat, nat)>, before: Search, s: Search, node: nat, low: int, dependencies: seq<nat>,
                      i: nat)
    requires Progress(e, before, s, node, low, dependencies, i)
    ensures Extends(before, s) && before.next <= Index(s, node) && low <= Index(s, node)
    ensures before.stack <= s.stack && |before.stack| < |s.stack| && s.stack[|before.stack|] == node
  {
  }

  lemma VisitedFacts(e: set<(nat, nat)>, before: Search, after: Search, v: nat, low: int)
    requires Visited(e, before, after, v, low)
    ensures Seen(before) <= Seen(after) && v in Seen(after) && |before.index| == |after.index|
  {
  }

  lemma MarksAt(onStack: seq<bool>, stack: seq<nat>, v: nat)
    requires Marks(onStack, stack) && v < |onStack|
    ensures onStack[v] <==> v in stack
  {
  }

  // ----- Ordering by symbol identifier -----------------------------------------------------------

  function Symbol(ids: seq<string>, v: nat): string { if v < |ids| then ids[v] else "" }

  function SymbolBefore(ids: seq<string>): (nat, nat) -> bool {
    (a: nat, b: nat) => StringOrder.Less(Symbol(ids, a), Symbol(ids, b))
  }

  function FirstSymbol(ids: seq<string>, c: seq<nat>): string { if c == [] then "" else Symbol(ids, c[0]) }

  function FirstSymbolBefore(ids: seq<string>): (seq<nat>, seq<nat>) -> bool {
    (c: seq<nat>, d: seq<nat>) => StringOrder.Less(FirstSymbol(ids, c), FirstSymbol(ids, d))
  }

  lemma KeyedOrderIsStrictWeak<T(!new)>(before: (T, T) -> bool, key: T -> string)
    requires forall a, b :: before(a, b) == StringOrder.Less(key(a), key(b))
    ensures StrictWeakOrder(before)
  {
    forall a, b | before(a, b) ensures !before(b, a) { StringOrder.LessAsymmetric(key(a), key(b)); }
    forall a, b, c | !before(a, b) && !before(b, c) ensures !before(a, c) {
      StringOrder.LessTotal(key(a), key(b));
      StringOrder.LessTotal(key(b), key(c));
      if key(a) != key(b) && key(b) != key(c) { StringOrder.LessTransitive(key(c), key(b), key(a)); }
      if before(a, c) { StringOrder.LessAsymmetric(key(a), key(c)); }
    }
  }

  lemma SymbolOrdersAreStrictWeak(ids: seq<string>)
    ensures StrictWeakOrder(SymbolBefore(ids)) && StrictWeakOrder(FirstSymbolBefore(ids))
  {
    KeyedOrderIsStrictWeak(SymbolBefore(ids), v => Symbol(ids, v));
    KeyedOrderIsStrictWeak(FirstSymbolBefore(ids), c => FirstSymbol(ids, c));
  }

  /** Every component lists its members by symbol. */
  ghost predicate MembersSorted(ids: seq<string>, components: seq<seq<nat>>) {
    forall c :: c in components ==> SortedBy(c, SymbolBefore(ids))
  }

  lemma AppendSortedComponent(ids: seq<string>, components: seq<seq<nat>>, c: seq<nat>)
    requires MembersSorted(ids, components)
    ensures MembersSorted(ids, components + [StableSort(c, SymbolBefore(ids))])
  {
    SymbolOrdersAreStrictWeak(ids);
    StableSortSorted(c, SymbolBefore(ids));
  }

  // ----- The search ------------------------------------------------------------------------------

  /** Depth-first search state of one component computation. */
  class ComponentSearch {
    const adjacency: seq<seq<nat>>
    const ids: seq<string>
    var indices: seq<int>
    var lowlinks: seq<int>
    var onStack: seq<bool>
    var stack: seq<nat>
    var nextIndex: nat
    var components: seq<seq<nat>>

    ghost function View(): Search
      reads this
    {
      Search(indices, stack, nextIndex, components)
    }

    ghost predicate Sized()
      reads this
    {
      && ValidGraph(adjacency)
      && |indices| == |lowlinks| == |onStack| == |adjacency|
      && Marks(onStack, stack) && MembersSorted(ids, components)
    }

    ghost predicate Valid(open: set<nat>)
      reads this
    {
      Sized() && Consistent(EdgeSet(adjacency), View(), open)
    }

    ghost function Unseen(): set<nat>
      reads this
    {
      set v: nat | v < |adjacency| && v !in Seen(View())
    }

    constructor (adjacency: seq<seq<nat>>, ids: seq<string>)
      requires ValidGraph(adjacency)
      ensures this.adjacency == adjacency && this.ids == ids
      ensures Valid({}) && Seen(View()) == {} && stack == []
    {
      this.adjacency, this.ids := adjacency, ids;
      indices := seq(|adjacency|, _ => -1);
      lowlinks := seq(|adjacency|, _ => 0);
      onStack := seq(|adjacency|, _ => false);
      stack, nextIndex, components := [], 0, [];
    }

    /** Numbers a node and stacks it. */
    method Open(node: nat, ghost open: set<nat>)
      requires Valid(open) && node < |adjacency| && indices[node] == -1
      requires forall g :: g in open ==> Reaches(EdgeSet(adjacency), g, node)
      modifies this
      ensures Valid(open + {node}) && View() == Push(old(View()), node)
      ensures lowlinks == old(lowlinks)[node := old(nextIndex)]
      ensures Unseen() == old(Unseen()) - {node}
      ensures Progress(EdgeSet(adjacency), old(View()), View(), node, lowlinks[node], adjacency[node], 0)
    {
      ghost var before := View();
      PushKeepsConsistent(EdgeSet(adjacency), before, open, node);
      PushFacts(before, node);
      ProgressStarts(EdgeSet(adjacency), before, node, adjacency[node]);
      indices := indices[node := nextIndex];
      lowlinks := lowlinks[node := nextIndex];
      nextIndex := nextIndex + 1;
      stack := stack + [node];
      onStack := onStack[node := true];
      assert View() == Push(before, node);
      assert node in stack;
      hide Consistent, Progress, Shape;
    }

    /** Examines the i-th successor of an open node. */
    method Follow(node: nat, i: nat, ghost open: set<nat>, ghost before: Search)
      requires Valid(open + {node}) && node < |adjacency| && i < |adjacency[node]|
      requires forall g :: g in open ==> Reaches(EdgeSet(adjacency), g, node)
      requires node in Seen(View()) && node !in Seen(before)
      requires Progress(EdgeSet(adjacency), before, View(), node, lowlinks[node], adjacency[node], i)
      modifies this
      ensures Valid(open + {node})
      ensures Progress(EdgeSet(adjacency), before, View(), node, lowlinks[node], adjacency[node], i + 1)
      ensures forall v :: v in Seen(before) ==> lowlinks[v] == old(lowlinks[v])
      ensures Seen(old(View())) <= Seen(View()) && Unseen() <= old(Unseen())
      decreases Unseen(), 1
    {
      hide Reaches, Progress, Consistent, Shape, Visited, Marks, MembersSorted;
      ghost var e, s := EdgeSet(adjacency), View();
      var dependency := adjacency[node][i];
      assert (node, dependency) in e;
      SearchFacts(e, s, open + {node});
      ProgressFacts(e, before, s, node, lowlinks[node], adjacency[node], i);
      if indices[dependency] == -1 {
        OpenReachSuccessor(e, open, node, dependency);
        Visit(dependency, open + {node});
        SearchFacts(e, View(), open + {node});
        ProgressAfterVisit(e, before, s, View(), node, lowlinks[node], lowlinks[dependency], adjacency[node], i);
        VisitedFacts(e, s, View(), dependency, lowlinks[dependency]);
        if lowlinks[dependency] < lowlinks[node] {
          lowlinks := lowlinks[node := lowlinks[dependency]];
        }
      } else {
        ProgressOverSeen(e, before, s, node, lowlinks[node], adjacency[node], i);
        MarksAt(onStack, stack, dependency);
        if onStack[dependency] && indices[dependency] < lowlinks[node] {
          lowlinks := lowlinks[node := indices[dependency]];
        }
      }
    }

    /** Pops down to and including the node stacked at position k. */
    method Unstack(node: nat, ghost k: nat) returns (component: seq<nat>)
      requires Sized() && NoDuplicates(stack) && (forall v :: v in stack ==> v < |adjacency|)
      requires k < |stack| && stack[k] == node
      modifies this`stack, this`onStack
      ensures Sized() && stack == old(stack)[..k]
      ensures multiset(component) == multiset(old(stack)[k..])
    {
      hide Marks, MembersSorted, ValidGraph;
      ghost var full := stack;
      component := [];
      while true
        invariant Sized() && k < |stack| <= |full| && stack == full[..|stack|]
        invariant multiset(component) == multiset(full[|stack|..])
        decreases |stack|
      {
        var last := stack[|stack|-1];
        assert last == full[|stack|-1] && last in full;
        assert full[|stack|-1..] == [last] + full[|stack|..];
        UnmarkLast(onStack, stack);
        stack := stack[..|stack|-1];
        onStack := onStack[last := false];
        component := component + [last];
        if last == node { break; }
      }
    }

    /** Ends a visit: either the node stays stacked, or its whole component is popped. */
    method Close(node: nat, ghost open: set<nat>, ghost before: Search)
      requires Valid(open + {node}) && node < |adjacency|
      requires Shape(before) && before.next <= Index(View(), node) && open <= Stacked(before)
      requires Progress(EdgeSet(adjacency), before, View(), node, lowlinks[node], adjacency[node], |adjacency[node]|)
      modifies this
      ensures Valid(open) && lowlinks == old(lowlinks) && Unseen() == old(Unseen())
      ensures Visited(EdgeSet(adjacency), before, View(), node, lowlinks[node])
    {
      hide Reaches, Progress, Consistent, Shape, Visited, Marks, MembersSorted, CrossingBound, LowWitness, Block;
      ghost var e, s, k := EdgeSet(adjacency), View(), |before.stack|;
      SearchFacts(e, s, open + {node});
      ProgressFacts(e, before, s, node, lowlinks[node], adjacency[node], |adjacency[node]|);
      ProgressEnds(e, before, s, node, lowlinks[node], adjacency[node]);
      if lowlinks[node] != indices[node] {
        VisitKeptStacked(e, before, s, node, lowlinks[node], adjacency[node]);
        CloseHelper(e, before, s, open, node, lowlinks[node]);
        return;
      }
      BlockFacts(s, k);
      var component := Unstack(node, k);
      AppendSortedComponent(ids, components, component);
      component := StableSort(component, SymbolBefore(ids));
      VisitPopped(e, before, s, node, adjacency[node], component);
      PopKeepsConsistent(e, s, open, k, component);
      components := components + [component];
      assert View() == Pop(s, k, component);
    }

    method Visit(node: nat, ghost open: set<nat>)
      requires Valid(open) && node < |adjacency| && indices[node] == -1
      requires forall g :: g in open ==> Reaches(EdgeSet(adjacency), g, node)
      modifies this
      ensures Valid(open)
      ensures Visited(EdgeSet(adjacency), old(View()), View(), node, lowlinks[node])
      ensures forall v :: v in Seen(old(View())) ==> lowlinks[v] == old(lowlinks[v])
      ensures Unseen() <= old(Unseen())
      decreases Unseen(), 0
    {
      ghost var e := EdgeSet(adjacency);
      ghost var before := View();
      hide Reaches, Progress, Consistent, Shape, Visited, Marks, MembersSorted;
      SearchFacts(e, before, open);
      PushFacts(before, node);
      Open(node, open);
      for i := 0 to |adjacency[node]|
        invariant Valid(open + {node})
        invariant Progress(e, before, View(), node, lowlinks[node], adjacency[node], i)
        invariant forall v :: v in Seen(before) ==> lowlinks[v] == old(lowlinks[v])
        invariant node in Seen(View()) && node !in Seen(before)
        invariant Unseen() < old(Unseen())
      {
        Follow(node, i, open, before);
      }
      ProgressFacts(e, before, View(), node, lowlinks[node], adjacency[node], |adjacency[node]|);
      Close(node, open, before);
    }
  }

  ghost function Nodes(n: nat): (r: set<nat>)
    ensures forall v: nat :: v in r <==> v < n
  {
    if n == 0 then {} else Nodes(n - 1) + {n - 1}
  }

  lemma PartitionPermuted(e: set<(nat, nat)>, components: seq<seq<nat>>, r: seq<seq<nat>>, covered: set<nat>)
    requires Partition(e, components, covered) && multiset(r) == multiset(components)
    ensures Partition(e, r, covered)
  {
    hide IsComponent;
    SameElements(r, components);
    forall v ensures InSome(components, v) <==> InSome(r, v) {
      if InSome(components, v) { var i :| 0 <= i < |components| && v in components[i]; assert components[i] in r; }
      if InSome(r, v) { var i :| 0 <= i < |r| && v in r[i]; assert r[i] in components; }
    }
    DistinctComponents(e, components, covered);
    NoDuplicatesPermuted(r, components);
    forall i | 0 <= i < |r| ensures IsComponent(e, r[i]) { assert r[i] in components; }
    forall i, j, v | 0 <= i < j < |r| && v in r[i] ensures v !in r[j] {
      assert r[i] in components && r[j] in components;
    }
  }

  lemma DistinctComponents(e: set<(nat, nat)>, components: seq<seq<nat>>, covered: set<nat>)
    requires Partition(e, components, covered)
    ensures NoDuplicates(components)
  {
    hide Reaches;
    forall i, j | 0 <= i < j < |components| ensures components[i] != components[j] {
      var v := components[i][0];
      assert v in components[i];
    }
  }

  function AllNodes(n: nat): (r: seq<nat>)
    ensures |r| == n && forall i :: 0 <= i < n ==> r[i] == i
  {
    if n == 0 then [] else AllNodes(n - 1) + [n - 1]
  }

  lemma NodesListed(n: nat, order: seq<nat>)
    requires multiset(order) == multiset(AllNodes(n))
    ensures forall v: nat :: v in order <==> v < n
  {
    var all := AllNodes(n);
    SameElements(order, all);
    forall v: nat | v < n ensures v in all { assert all[v] == v; }
  }

  lemma MembersSortedPermuted(ids: seq<string>, components: seq<seq<nat>>, r: seq<seq<nat>>)
    requires MembersSorted(ids, components) && multiset(r) == multiset(components)
    ensures MembersSorted(ids, r)
  {
    SameElements(r, components);
  }

  ghost predicate SeenAll(s: Search, nodes: seq<nat>) { forall v :: v in nodes ==> v in Seen(s) }

  lemma SeenNone(s: Search, order: seq<nat>)
    ensures SeenAll(s, order[..0])
  {
  }

  lemma SeenOneMore(s: Search, t: Search, order: seq<nat>, i: nat)
    requires i < |order| && SeenAll(s, order[..i]) && Seen(s) <= Seen(t)
    requires order[i] in Seen(t)
    ensures SeenAll(t, order[..i+1])
  {
    assert order[..i+1] == order[..i] + [order[i]];
  }

  lemma EveryNodeSeen(s: Search, order: seq<nat>, n: nat)
    requires forall v: nat :: v in order <==> v < n
    requires SeenAll(s, order[..|order|]) && |s.index| == n
    ensures Seen(s) == Nodes(n)
  {
    assert order[..|order|] == order;
    forall v: nat | v < n ensures v in Seen(s) { assert v in order; }
  }

  lemma NothingStackedUnlessOpen(e: set<(nat, nat)>, s: Search, v: nat)
    requires AllAnchored(e, s, {})
    ensures v !in Stacked(s)
  {
    assert v in Stacked(s) ==> Anchored(e, s, {}, v);
  }

  /** With no visit under way nothing is stacked. */
  lemma EmptyStack(e: set<(nat, nat)>, s: Search)
    requires Consistent(e, s, {})
    ensures s.stack == [] && Finished(s) == Seen(s) && Seen(s) <= Nodes(|s.index|)
    ensures Partition(e, s.components, Seen(s))
  {
    assert s.stack != [] ==> s.stack[0] in Stacked(s);
    forall v: nat ensures v !in Stacked(s) { NothingStackedUnlessOpen(e, s, v); }
  }

  /** Visits every node in symbol order that no earlier visit reached. */
  method SearchAll(adjacency: seq<seq<nat>>, ids: seq<string>) returns (components: seq<seq<nat>>)
    requires ValidGraph(adjacency)
    ensures Partition(EdgeSet(adjacency), components, Nodes(|adjacency|))
    ensures MembersSorted(ids, components)
  {
    hide Consistent, MembersSorted, Partition, SortedBy, Reaches, Marks, Visited, ValidGraph, AllNodes, SeenAll,
         Stacked;
    var search := new ComponentSearch(adjacency, ids);
    var order := StableSort(AllNodes(|adjacency|), SymbolBefore(ids));
    NodesListed(|adjacency|, order);
    EmptyStack(EdgeSet(adjacency), search.View());
    SeenNone(search.View(), order);
    for i := 0 to |order|
      invariant search.Valid({}) && search.stack == [] && search.adjacency == adjacency && search.ids == ids
      invariant SeenAll(search.View(), order[..i])
    {
      ghost var before := search.View();
      assert order[i] in order && |search.indices| == |adjacency|;
      if search.indices[order[i]] == -1 {
        search.Visit(order[i], {});
        VisitedFacts(EdgeSet(adjacency), before, search.View(), order[i], search.lowlinks[order[i]]);
        EmptyStack(EdgeSet(adjacency), search.View());
      }
      SeenOneMore(before, search.View(), order, i);
    }
    EmptyStack(EdgeSet(adjacency), search.View());
    EveryNodeSeen(search.View(), order, |adjacency|);
    components := search.components;
  }

    /** The identifiers of a list of nodes ascend. */
  ghost predicate Spelled(ids: seq<string>, c: seq<nat>) {
    forall i, j :: 0 <= i < j < |c| ==> SpelledAt(ids, c[i], c[j])
  }

  ghost predicate SpelledAt(ids: seq<string>, v: nat, w: nat) {
    v < |ids| && w < |ids| && StringOrder.SpelledBefore(ids[v], ids[w])
  }

  ghost predicate FirstSpelled(ids: seq<string>, c: seq<nat>, d: seq<nat>) {
    c != [] && d != [] && SpelledAt(ids, c[0], d[0])
  }

  /** Within each component and from one to the next. */
  ghost predicate InSpelling(ids: seq<string>, components: seq<seq<nat>>) {
    && (forall k :: 0 <= k < |components| ==> Spelled(ids, components[k]))
    && forall i, j :: 0 <= i < j < |components| ==> FirstSpelled(ids, components[i], components[j])
  }

  lemma ComponentsSpelled(e: set<(nat, nat)>, ids: seq<string>, components: seq<seq<nat>>)
    requires NoDuplicates(ids) && Partition(e, components, Nodes(|ids|))
    requires MembersSorted(ids, components) && SortedBy(components, FirstSymbolBefore(ids))
    ensures InSpelling(ids, components)
  {
    hide Partition, MembersSorted, SortedBy, FirstSymbolBefore, FirstSpelled, NoDuplicates;
    forall k | 0 <= k < |components| ensures Spelled(ids, components[k]) {
      ComponentIn(e, ids, components, k);
      MembersSpelled(ids, components[k]);
    }
    forall i, j | 0 <= i < j < |components| ensures FirstSpelled(ids, components[i], components[j]) {
      ComponentIn(e, ids, components, i);
      ComponentIn(e, ids, components, j);
      assert components[i][0] in components[i] && components[j][0] in components[j];
      FirstsSpelled(e, ids, components, i, j);
    }
  }

  lemma ComponentIn(e: set<(nat, nat)>, ids: seq<string>, components: seq<seq<nat>>, k: nat)
    requires Partition(e, components, Nodes(|ids|)) && MembersSorted(ids, components) && k < |components|
    ensures components[k] != [] && NoDuplicates(components[k]) && SortedBy(components[k], SymbolBefore(ids))
    ensures forall v :: v in components[k] ==> v < |ids|
  {
    hide Mutual, SortedBy;
    assert components[k] in components;
    forall v | v in components[k] ensures v < |ids| { assert InSome(components, v); }
  }

  lemma MembersDiffer(c: seq<nat>)
    requires NoDuplicates(c)
    ensures forall i, j :: 0 <= i < j < |c| ==> c[i] != c[j]
  {
  }

  lemma MembersSpelled(ids: seq<string>, c: seq<nat>)
    requires NoDuplicates(ids) && NoDuplicates(c) && SortedBy(c, SymbolBefore(ids)) && forall v :: v in c ==> v < |ids|
    ensures Spelled(ids, c)
  {
    hide StringOrder.Less, StringOrder.SpelledBefore, NoDuplicates;
    MembersDiffer(c);
    forall i, j | 0 <= i < j < |c| ensures SpelledAt(ids, c[i], c[j]) {
      assert c[i] in c && c[j] in c && !SymbolBefore(ids)(c[j], c[i]);
      SpelledUnlessAfter(ids, c[i], c[j]);
    }
  }

  lemma FirstsSpelled(e: set<(nat, nat)>, ids: seq<string>, components: seq<seq<nat>>, i: nat, j: nat)
    requires NoDuplicates(ids) && Partition(e, components, Nodes(|ids|)) && i < j < |components|
    requires SortedBy(components, FirstSymbolBefore(ids)) && components[i] != [] && components[j] != []
    requires components[i][0] < |ids| && components[j][0] < |ids|
    ensures FirstSpelled(ids, components[i], components[j])
  {
    hide IsComponent, StringOrder.SpelledBefore;
    var v, w := components[i][0], components[j][0];
    assert v in components[i] && w in components[j];
    assert !FirstSymbolBefore(ids)(components[j], components[i]);
    SpelledUnlessAfter(ids, v, w);
  }

  lemma SpelledUnlessAfter(ids: seq<string>, v: nat, w: nat)
    requires NoDuplicates(ids) && v < |ids| && w < |ids| && v != w && !StringOrder.Less(ids[w], ids[v])
    ensures StringOrder.SpelledBefore(ids[v], ids[w])
  {
    assert ids[v] != ids[w];
    StringOrder.LessTotal(ids[v], ids[w]);
    StringOrder.LessIffSpelledBefore(ids[v], ids[w]);
  }

/**
   * Strongly connected components, members and components in symbol order. Two nodes share a component
   * exactly when each reaches the other, and every node is in exactly one component.
   */
  method StronglyConnected(adjacency: seq<seq<nat>>, ids: seq<string>) returns (components: seq<seq<nat>>)
    requires ValidGraph(adjacency)
    ensures Partition(EdgeSet(adjacency), components, Nodes(|adjacency|))
    ensures MembersSorted(ids, components)
    ensures SortedBy(components, FirstSymbolBefore(ids))
    ensures NoDuplicates(ids) && |ids| == |adjacency| ==> InSpelling(ids, components)
  {
    hide MembersSorted, Partition, SortedBy, ValidGraph, Nodes, NoDuplicates, InSpelling;
    var found := SearchAll(adjacency, ids);
    components := StableSort(found, FirstSymbolBefore(ids));
    PartitionPermuted(EdgeSet(adjacency), found, components, Nodes(|adjacency|));
    MembersSortedPermuted(ids, found, components);
    SymbolOrdersAreStrictWeak(ids);
    StableSortSorted(found, FirstSymbolBefore(ids));
    if NoDuplicates(ids) && |ids| == |adjacency| { ComponentsSpelled(EdgeSet(adjacency), ids, components); }
  }
}
