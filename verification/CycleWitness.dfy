/** The printed witness of a provider cycle (compiler/graph/build.go, representativeCycle). */
module CycleWitness {
  import opened Digraph
  import opened Tarjan

  /** A walk of real edges from start back to start that repeats no other node. */
  ghost predicate SimpleCycle(edges: set<(nat, nat)>, start: nat, p: seq<nat>) {
    |p| >= 2 && PathFromTo(edges, p, start, start) && NoDuplicates(p[1..])
  }

  /** A way on from node to start whose inner nodes are distinct unvisited members. */
  ghost predicate WayBack(edges: set<(nat, nat)>, members: set<nat>, start: nat, visited: set<nat>, node: nat,
                          q: seq<nat>) {
    && |q| >= 2 && PathFromTo(edges, q, node, start) && NoDuplicates(q[1..])
    && (forall i :: 0 < i < |q| - 1 ==> q[i] in members && q[i] !in visited)
  }

  ghost predicate NoWayBackVia(edges: set<(nat, nat)>, members: set<nat>, start: nat, visited: set<nat>, node: nat,
                               firsts: seq<nat>) {
    forall q :: WayBack(edges, members, start, visited, node, q) ==> q[1] !in firsts
  }

  lemma WayBackThrough(edges: set<(nat, nat)>, members: set<nat>, start: nat, visited: set<nat>, node: nat, next: nat,
                       q: seq<nat>)
    requires start in visited && WayBack(edges, members, start, visited, node, q) && q[1] == next && next != start
    ensures WayBack(edges, members, start, visited + {next}, next, q[1..])
  {
    var r := q[1..];
    assert r[|r|-1] == start;
    assert forall i, j :: 0 <= i < j < |r| && j == i + 1 ==> r[i] == q[i+1] && r[j] == q[j+1];
    forall i | 0 < i < |r| - 1 ensures r[i] in members && r[i] !in visited + {next} {
      assert r[i] == q[i+1] && r[0] == next;
    }
  }

  lemma DropFirst(edges: set<(nat, nat)>, members: set<nat>, start: nat, visited: set<nat>, node: nat,
                  firsts: seq<nat>, next: nat)
    requires start in visited && next != start
    requires NoWayBackVia(edges, members, start, visited, node, firsts)
    requires next !in members || next in visited ||
             forall r :: !WayBack(edges, members, start, visited + {next}, next, r)
    ensures NoWayBackVia(edges, members, start, visited, node, firsts + [next])
  {
    forall q | WayBack(edges, members, start, visited, node, q) ensures q[1] !in firsts + [next] {
      if q[1] == next {
        if |q| > 2 { WayBackThrough(edges, members, start, visited, node, next, q); }
      }
    }
  }

  /** With every neighbour tried there is no way back. */
  lemma AllTried(adjacency: seq<seq<nat>>, members: set<nat>, start: nat, visited: set<nat>, node: nat)
    requires ValidGraph(adjacency) && node < |adjacency|
    requires NoWayBackVia(EdgeSet(adjacency), members, start, visited, node, adjacency[node])
    ensures forall q :: !WayBack(EdgeSet(adjacency), members, start, visited, node, q)
  {
    forall q ensures !WayBack(EdgeSet(adjacency), members, start, visited, node, q) {
      if |q| >= 2 && q[0] == node && (q[0], q[1]) in EdgeSet(adjacency) { assert q[1] in adjacency[node]; }
    }
  }

  class CycleSearch {
    const adjacency: seq<seq<nat>>
    const members: set<nat>
    const start: nat
    var visited: set<nat>
    var path: seq<nat>

    constructor (adjacency: seq<seq<nat>>, members: set<nat>, start: nat)
      ensures this.adjacency == adjacency && this.members == members && this.start == start
      ensures visited == {start} && path == [start]
    {
      this.adjacency, this.members, this.start := adjacency, members, start;
      visited, path := {start}, [start];
    }

    /** The current path is a simple path from start, and exactly its nodes are marked visited. */
    ghost predicate Valid()
      reads this
    {
      && start in members && ValidGraph(adjacency) && IsPath(EdgeSet(adjacency), path) && path[0] == start
      && NoDuplicates(path)
      && (forall v :: v in path <==> v in visited)
    }

    /** Extends the path until it closes at start; on failure the path is as it was and no way back exists. */
    method Search(node: nat) returns (found: bool)
      requires Valid() && path[|path|-1] == node && node < |adjacency|
      modifies this
      ensures found ==> SimpleCycle(EdgeSet(adjacency), start, path)
      ensures found ==> old(path) <= path && forall i :: |old(path)| <= i < |path| - 1 ==> path[i] in members
      ensures !found ==> path == old(path) && visited == old(visited)
      ensures !found ==> forall q :: !WayBack(EdgeSet(adjacency), members, start, visited, node, q)
      decreases members - visited
    {
      ghost var e := EdgeSet(adjacency);
      ghost var path0 := path;
      for i := 0 to |adjacency[node]|
        invariant path == path0 && visited == old(visited)
        invariant NoWayBackVia(e, members, start, visited, node, adjacency[node][..i])
      {
        var next := adjacency[node][i];
        assert (node, next) in e;
        assert adjacency[node][..i+1] == adjacency[node][..i] + [next];
        if next in members {
          if next == start {
            path := path + [start];
            assert path[1..] == path0[1..] + [start];
            return true;
          }
          if next !in visited {
            visited := visited + {next};
            path := path + [next];
            found := Search(next);
            if found { return true; }
            path := path[..|path|-1];
            visited := visited - {next};
            assert path == path0 && visited == old(visited);
          }
        }
        DropFirst(e, members, start, visited, node, adjacency[node][..i], next);
      }
      assert adjacency[node][..|adjacency[node]|] == adjacency[node];
      AllTried(adjacency, members, start, visited, node);
      return false;
    }
  }

  ghost function Members(c: seq<nat>): set<nat> { set v: nat | v in c }

  /** A simple cycle through v that stays inside the component. */
  ghost predicate HasWayBack(edges: set<(nat, nat)>, c: seq<nat>, v: nat) {
    exists q :: WayBack(edges, Members(c), v, {v}, v, q)
  }

  /** A cyclic component: several members, or one that depends on itself. */
  ghost predicate CyclicComponent(edges: set<(nat, nat)>, c: seq<nat>) {
    IsComponent(edges, c) && (|c| > 1 || (c[0], c[0]) in edges)
  }

  /** In a component of several members every one of them is on a simple cycle of members. */
  lemma LargeComponentHasWayBack(edges: set<(nat, nat)>, c: seq<nat>, start: nat)
    requires IsComponent(edges, c) && |c| > 1 && start in c
    ensures HasWayBack(edges, c, start)
  {
    var other := if start == c[0] then c[1] else c[0];
    assert other in c && other != start;
    assert Mutual(edges, start, other);
    var p :| PathFromTo(edges, p, start, other);
    p := SimplePath(edges, p, start, other);
    var next := p[1];
    assert next != start;
    PathNodeBetween(edges, p, 1);
    ReachesTransitive(edges, next, other, start);
    var r :| PathFromTo(edges, r, next, start);
    r := SimplePath(edges, r, next, start);
    var q := [start] + r;
    assert q[1..] == r && q[|q|-1] == start;
    forall i, j | 0 <= i < j < |q| && j == i + 1 ensures (q[i], q[j]) in edges {
      if i > 0 { assert q[i] == r[i-1] && q[j] == r[j-1]; }
    }
    forall i | 0 < i < |q| - 1 ensures q[i] in Members(c) && q[i] !in {start} {
      assert q[i] == r[i-1] && r[|r|-1] == start;
      PathNodeBetween(edges, r, i - 1);
      ReachesEdge(edges, start, next);
      ReachesTransitive(edges, start, next, q[i]);
      assert Mutual(edges, start, q[i]);
    }
    assert WayBack(edges, Members(c), start, {start}, start, q);
  }

  /** The witness: a self-loop if the first member has one, else a simple cycle if there is one, else the fallback. */
  method RepresentativeCycle(component: seq<nat>, adjacency: seq<seq<nat>>) returns (path: seq<nat>)
    requires ValidGraph(adjacency) && component != [] && component[0] < |adjacency|
    ensures component[0] in adjacency[component[0]] ==> path == [component[0], component[0]]
    ensures component[0] !in adjacency[component[0]] && HasWayBack(EdgeSet(adjacency), component, component[0]) ==>
              SimpleCycle(EdgeSet(adjacency), component[0], path) && forall v :: v in path ==> v in component
    ensures component[0] !in adjacency[component[0]] && !HasWayBack(EdgeSet(adjacency), component, component[0]) ==>
              path == component + [component[0]]
  {
    var start := component[0];
    if start in adjacency[start] { return [start, start]; }
    var search := new CycleSearch(adjacency, (set v: nat | v in component), start);
    assert search.members == Members(component);
    var found := search.Search(start);
    if found {
      path := search.path;
      assert WayBack(EdgeSet(adjacency), Members(component), start, {start}, start, path);
    } else {
      path := component + [start];
    }
  }

  /** For a cyclic component the witness is a simple cycle of its own members; the fallback is never printed. */
  lemma WitnessIsCycle(adjacency: seq<seq<nat>>, component: seq<nat>, path: seq<nat>)
    requires ValidGraph(adjacency) && CyclicComponent(EdgeSet(adjacency), component) && component[0] < |adjacency|
    requires component[0] in adjacency[component[0]] ==> path == [component[0], component[0]]
    requires component[0] !in adjacency[component[0]] && HasWayBack(EdgeSet(adjacency), component, component[0]) ==>
               SimpleCycle(EdgeSet(adjacency), component[0], path) && forall v :: v in path ==> v in component
    ensures SimpleCycle(EdgeSet(adjacency), component[0], path)
    ensures forall v :: v in path ==> v in component
  {
    var start := component[0];
    if start in adjacency[start] {
      assert (start, start) in EdgeSet(adjacency) && path[1..] == [start];
      assert PathFromTo(EdgeSet(adjacency), path, start, start);
    } else {
      LargeComponentHasWayBack(EdgeSet(adjacency), component, start);
    }
  }

  /** The component of a node on a cycle is cyclic. */
  lemma CycleNodeComponent(edges: set<(nat, nat)>, c: seq<nat>, a: nat, b: nat)
    requires IsComponent(edges, c) && a in c && (a, b) in edges && Reaches(edges, b, a)
    ensures CyclicComponent(edges, c)
  {
    ReachesEdge(edges, a, b);
    assert Mutual(edges, a, b);
    assert b in c;
    if |c| == 1 { assert a == c[0] && b == c[0]; }
  }

  /** The component test decides cyclicity: some component is cyclic exactly when the graph has a cycle. */
  lemma CyclicIffCyclicComponent(edges: set<(nat, nat)>, components: seq<seq<nat>>, covered: set<nat>)
    requires Partition(edges, components, covered)
    requires forall a, b :: (a, b) in edges ==> a in covered
    ensures Cyclic(edges) <==> exists i :: 0 <= i < |components| && CyclicComponent(edges, components[i])
  {
    if Cyclic(edges) {
      var a, b :| (a, b) in edges && Reaches(edges, b, a);
      assert InSome(components, a);
      var i :| 0 <= i < |components| && a in components[i];
      CycleNodeComponent(edges, components[i], a, b);
    }
    if i :| 0 <= i < |components| && CyclicComponent(edges, components[i]) {
      var c := components[i];
      if (c[0], c[0]) in edges {
        ReachesSelf(edges, c[0]);
      } else {
        LargeComponentHasWayBack(edges, c, c[0]);
        var q :| WayBack(edges, Members(c), c[0], {c[0]}, c[0], q);
        PathNodeBetween(edges, q, 1);
        assert (q[0], q[1]) in edges && Reaches(edges, q[1], q[0]);
      }
    }
  }
}
