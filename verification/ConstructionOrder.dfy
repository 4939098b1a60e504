/** Kahn's algorithm over the ready heap (compiler/graph/build.go, constructionOrderWithStats). */
module ConstructionOrder {
  import opened Digraph
  import opened Tarjan
  import opened SymbolLists
  import opened ReadyQueue
  import LeastOrder
  import StringOrder

  // ----- From indices to identifiers -------------------------------------------------------------

  ghost function Names(order: seq<nat>, ids: seq<string>): seq<string> {
    seq(|order|, i requires 0 <= i < |order| => Symbol(ids, order[i]))
  }

  ghost function NameSet(s: set<nat>, ids: seq<string>): set<string> { set v | v in s :: Symbol(ids, v) }

  /** The dependency relation on identifiers: (consumer, dependency). */
  ghost function NameEdges(e: set<(nat, nat)>, ids: seq<string>): set<(string, string)> {
    set p | p in e :: (Symbol(ids, p.0), Symbol(ids, p.1))
  }

  /** Listed duplicate-free, inside the catalog, under unique identifiers. */
  ghost predicate CleanGraph(adjacency: seq<seq<nat>>, ids: seq<string>) {
    && ValidGraph(adjacency) && |ids| == |adjacency| && NoDuplicates(ids)
    && forall v :: 0 <= v < |adjacency| ==> NoDuplicates(adjacency[v])
  }

  lemma SymbolIsInjective(ids: seq<string>, v: nat, w: nat)
    requires NoDuplicates(ids) && v < |ids| && w < |ids| && Symbol(ids, v) == Symbol(ids, w)
    ensures v == w
  {
  }

  // ----- Pending dependencies --------------------------------------------------------------------

  ghost function Pending(dependencies: seq<nat>, done: set<nat>): set<nat> {
    set d: nat | d in dependencies && d !in done
  }

  lemma {:induction false} PendingAtStart(dependencies: seq<nat>)
    requires NoDuplicates(dependencies)
    ensures |Pending(dependencies, {})| == |dependencies|
  {
    if dependencies != [] {
      var k := |dependencies| - 1;
      var rest := dependencies[..k];
      assert dependencies == rest + [dependencies[k]];
      PendingAtStart(rest);
      assert dependencies[k] !in rest;
      assert Pending(dependencies, {}) == Pending(rest, {}) + {dependencies[k]};
    } else {
      assert Pending(dependencies, {}) == {};
    }
  }

  lemma PendingAfter(dependencies: seq<nat>, done: set<nat>, node: nat)
    requires node !in done
    ensures |Pending(dependencies, done + {node})|
            == |Pending(dependencies, done)| - (if node in dependencies then 1 else 0)
  {
    assert Pending(dependencies, done + {node}) == Pending(dependencies, done) - {node};
  }

  /** Nodes not yet emitted whose counter is zero. */
  ghost function ZeroCount(remaining: seq<int>, done: set<nat>): set<nat> {
    set v: nat | v < |remaining| && v !in done && remaining[v] == 0
  }

  ghost predicate Counts(adjacency: seq<seq<nat>>, remaining: seq<int>, done: set<nat>) {
    |remaining| == |adjacency| && forall v :: 0 <= v < |adjacency| ==> remaining[v] == |Pending(adjacency[v], done)|
  }

  /** Counters while the consumers of `node` are being served: those in `served` already see it done. */
  ghost predicate CountsServing(adjacency: seq<seq<nat>>, remaining: seq<int>, done: set<nat>, node: nat,
                                served: seq<nat>) {
    && |remaining| == |adjacency|
    && forall v: nat :: v < |adjacency| ==>
         remaining[v] == |Pending(adjacency[v], if v in served || node !in adjacency[v] then done + {node} else done)|
  }

  lemma ServingStarts(adjacency: seq<seq<nat>>, remaining: seq<int>, done: set<nat>, node: nat)
    requires Counts(adjacency, remaining, done) && node !in done
    ensures CountsServing(adjacency, remaining, done, node, [])
  {
    forall v: nat | v < |adjacency|
      ensures remaining[v] == |Pending(adjacency[v], if node !in adjacency[v] then done + {node} else done)|
    {
      PendingAfter(adjacency[v], done, node);
    }
  }

  lemma ServingEnds(adjacency: seq<seq<nat>>, remaining: seq<int>, done: set<nat>, node: nat, served: seq<nat>)
    requires CountsServing(adjacency, remaining, done, node, served)
    requires forall v: nat :: v in served <==> v < |adjacency| && node in adjacency[v]
    ensures Counts(adjacency, remaining, done + {node})
  {
  }

  lemma ServeOne(adjacency: seq<seq<nat>>, remaining: seq<int>, done: set<nat>, node: nat, served: seq<nat>, v: nat)
    requires CountsServing(adjacency, remaining, done, node, served) && node !in done
    requires v < |adjacency| && v !in served && node in adjacency[v]
    ensures CountsServing(adjacency, remaining[v := remaining[v] - 1], done, node, served + [v])
    ensures remaining[v] > 0
  {
    PendingAfter(adjacency[v], done, node);
    assert node in Pending(adjacency[v], done);
  }

  // ----- Consumer lists --------------------------------------------------------------------------

  ghost predicate Consumers(adjacency: seq<seq<nat>>, consumers: seq<seq<nat>>, upTo: nat) {
    && |consumers| == |adjacency|
    && forall d: nat, v: nat :: d < |consumers| ==>
         (v in consumers[d] <==> v < upTo && v < |adjacency| && d in adjacency[v])
  }

  method CountDependencies(adjacency: seq<seq<nat>>, ids: seq<string>)
      returns (remaining: seq<int>, consumers: seq<seq<nat>>)
    requires CleanGraph(adjacency, ids)
    ensures Counts(adjacency, remaining, {}) && Consumers(adjacency, consumers, |adjacency|)
    ensures forall d :: 0 <= d < |consumers| ==> Ascending(consumers[d], ids)
  {
    var n := |adjacency|;
    remaining := seq(n, _ => 0);
    consumers := seq(n, _ => []);
    for consumer := 0 to n
      invariant |remaining| == n && Consumers(adjacency, consumers, consumer)
      invariant forall v :: 0 <= v < consumer ==> remaining[v] == |adjacency[v]|
    {
      remaining := remaining[consumer := |adjacency[consumer]|];
      ghost var before := consumers;
      for k := 0 to |adjacency[consumer]|
        invariant |consumers| == n
        invariant forall d: nat, v: nat :: d < n ==>
                    (v in consumers[d] <==> v in before[d] || (v == consumer && d in adjacency[consumer][..k]))
      {
        var dependency := adjacency[consumer][k];
        assert adjacency[consumer][..k+1] == adjacency[consumer][..k] + [dependency];
        consumers := consumers[dependency := consumers[dependency] + [consumer]];
      }
      assert adjacency[consumer][..|adjacency[consumer]|] == adjacency[consumer];
    }
    for d := 0 to n
      invariant Consumers(adjacency, consumers, n)
      invariant forall c :: 0 <= c < d ==> Ascending(consumers[c], ids)
    {
      ConsumersAt(adjacency, consumers, d);
      var list := SortedUnique(consumers[d], ids);
      consumers := consumers[d := list];
    }
    forall v | 0 <= v < n ensures remaining[v] == |Pending(adjacency[v], {})| { PendingAtStart(adjacency[v]); }
  }

  // ----- Serving the consumers of an emitted node ------------------------------------------------

  lemma ZeroCountServed(remaining: seq<int>, done: set<nat>, v: nat)
    requires v < |remaining| && v !in done && remaining[v] > 0
    ensures ZeroCount(remaining[v := remaining[v] - 1], done) ==
            ZeroCount(remaining, done) + (if remaining[v] == 1 then {v} else {})
    ensures v !in ZeroCount(remaining, done)
  {
  }

  method Serve(queue: Queue, counts: seq<int>, consumers: seq<nat>, node: nat,
               ghost adjacency: seq<seq<nat>>, ghost done: set<nat>) returns (remaining: seq<int>)
    requires Counts(adjacency, counts, done) && node !in done && NoDuplicates(consumers)
    requires forall v: nat :: v in consumers <==> v < |adjacency| && node in adjacency[v]
    requires forall v: nat :: v in done + {node} && v < |adjacency| ==> node !in adjacency[v]
    requires IsHeap(queue.values, SymbolBefore(queue.ids))
    requires multiset(queue.values) == multiset(ZeroCount(counts, done + {node}))
    modifies queue
    ensures Counts(adjacency, remaining, done + {node})
    ensures IsHeap(queue.values, SymbolBefore(queue.ids))
    ensures multiset(queue.values) == multiset(ZeroCount(remaining, done + {node}))
  {
    hide IsHeap, Counts, CountsServing, ZeroCount, SymbolBefore;
    remaining := counts;
    ServingStarts(adjacency, counts, done, node);
    for i := 0 to |consumers|
      invariant CountsServing(adjacency, remaining, done, node, consumers[..i])
      invariant IsHeap(queue.values, SymbolBefore(queue.ids))
      invariant multiset(queue.values) == multiset(ZeroCount(remaining, done + {node}))
    {
      var consumer := consumers[i];
      assert consumer in consumers && consumer !in consumers[..i];
      assert consumers[..i+1] == consumers[..i] + [consumer];
      ServingLength(adjacency, remaining, done, node, consumers[..i]);
      ServeOne(adjacency, remaining, done, node, consumers[..i], consumer);
      ZeroCountServed(remaining, done + {node}, consumer);
      remaining := remaining[consumer := remaining[consumer] - 1];
      if remaining[consumer] == 0 { queue.Push(consumer); }
    }
    assert consumers[..|consumers|] == consumers;
    ServingEnds(adjacency, remaining, done, node, consumers);
  }

  lemma ServingLength(adjacency: seq<seq<nat>>, remaining: seq<int>, done: set<nat>, node: nat, served: seq<nat>)
    requires CountsServing(adjacency, remaining, done, node, served)
    ensures |remaining| == |adjacency|
  {
  }

  // ----- The order -------------------------------------------------------------------------------

  /** Everything an emitted node depends on was emitted too. */
  ghost predicate DoneClosed(adjacency: seq<seq<nat>>, done: set<nat>) {
    forall v: nat :: v in done ==> v < |adjacency| && Pending(adjacency[v], done) == {}
  }

  /** Zero counters on indices are exactly readiness on identifiers. */
  lemma ReadyIsZeroCount(adjacency: seq<seq<nat>>, ids: seq<string>, remaining: seq<int>, done: set<nat>)
    requires CleanGraph(adjacency, ids) && Counts(adjacency, remaining, done) && DoneClosed(adjacency, done)
    ensures LeastOrder.Ready(LeastOrder.Elements(ids), NameEdges(EdgeSet(adjacency), ids), NameSet(done, ids))
            == NameSet(ZeroCount(remaining, done), ids)
  {
    var nodes, deps, names := LeastOrder.Elements(ids), NameEdges(EdgeSet(adjacency), ids), NameSet(done, ids);
    forall v: nat | v < |ids| ensures ids[v] in names <==> v in done {
      if ids[v] in names {
        var w :| w in done && Symbol(ids, w) == ids[v];
        SymbolIsInjective(ids, v, w);
      }
      if v in done { assert Symbol(ids, v) in names; }
    }
    forall v: nat | v < |ids|
      ensures LeastOrder.DependsOnlyOn(deps, ids[v], names) <==> Pending(adjacency[v], done) == {}
    {
      if Pending(adjacency[v], done) == {} {
        forall d | (ids[v], d) in deps ensures d in names {
          var p :| p in EdgeSet(adjacency) && (Symbol(ids, p.0), Symbol(ids, p.1)) == (ids[v], d);
          SymbolIsInjective(ids, p.0, v);
          assert p.1 in adjacency[v];
          assert p.1 !in Pending(adjacency[v], done);
          assert p.1 in done;
        }
      } else {
        var d :| d in Pending(adjacency[v], done);
        var k :| 0 <= k < |adjacency[v]| && adjacency[v][k] == d;
        assert (v, d) in EdgeSet(adjacency);
        assert (Symbol(ids, v), Symbol(ids, d)) in deps;
        assert (ids[v], ids[d]) in deps && ids[d] !in names;
      }
    }
    var zero := ZeroCount(remaining, done);
    var ready := LeastOrder.Ready(nodes, deps, names);
    forall n | n in ready ensures n in NameSet(zero, ids) {
      var v: nat :| v < |ids| && ids[v] == n;
      assert Pending(adjacency[v], done) == {};
      assert v in zero && Symbol(ids, v) == n;
    }
    forall v | v in zero ensures Symbol(ids, v) in ready {
      assert Pending(adjacency[v], done) == {};
      assert ids[v] in nodes;
    }
  }

  ghost function Target(adjacency: seq<seq<nat>>, ids: seq<string>, done: set<nat>): seq<string> {
    LeastOrder.Emit(LeastOrder.Elements(ids), NameEdges(EdgeSet(adjacency), ids), NameSet(done, ids))
  }

  lemma EmitNext(adjacency: seq<seq<nat>>, ids: seq<string>, remaining: seq<int>, done: set<nat>, node: nat)
    requires CleanGraph(adjacency, ids) && Counts(adjacency, remaining, done) && DoneClosed(adjacency, done)
    requires node in ZeroCount(remaining, done)
    requires forall v :: v in ZeroCount(remaining, done) ==> !SymbolBefore(ids)(v, node)
    ensures Target(adjacency, ids, done) == [Symbol(ids, node)] + Target(adjacency, ids, done + {node})
    ensures DoneClosed(adjacency, done + {node})
    ensures forall v: nat :: v in done + {node} && v < |adjacency| ==> node !in adjacency[v]
  {
    ReadyIsZeroCount(adjacency, ids, remaining, done);
    var zero := ZeroCount(remaining, done);
    var ready := NameSet(zero, ids);
    assert Symbol(ids, node) in ready;
    forall x | x in ready && x != Symbol(ids, node) ensures StringOrder.Less(Symbol(ids, node), x) {
      var v :| v in zero && Symbol(ids, v) == x;
      StringOrder.LessTotal(x, Symbol(ids, node));
    }
    StringOrder.LeastUnique(Symbol(ids, node), StringOrder.Least(ready), ready);
    assert NameSet(done + {node}, ids) == NameSet(done, ids) + {Symbol(ids, node)};
    assert Pending(adjacency[node], done) == {};
    forall v: nat | v in done + {node} && v < |adjacency| ensures node !in adjacency[v] {
      assert node !in Pending(adjacency[v], done);
    }
    forall v: nat | v in done + {node} ensures Pending(adjacency[v], done + {node}) == {} {
      assert Pending(adjacency[v], done + {node}) <= Pending(adjacency[v], done);
    }
  }

  lemma NothingReady(adjacency: seq<seq<nat>>, ids: seq<string>, remaining: seq<int>, done: set<nat>)
    requires CleanGraph(adjacency, ids) && Counts(adjacency, remaining, done) && DoneClosed(adjacency, done)
    requires ZeroCount(remaining, done) == {}
    ensures Target(adjacency, ids, done) == []
  {
    ReadyIsZeroCount(adjacency, ids, remaining, done);
    assert NameSet({}, ids) == {};
  }

  lemma NamesAppend(order: seq<nat>, ids: seq<string>, node: nat)
    ensures Names(order + [node], ids) == Names(order, ids) + [Symbol(ids, node)]
  {
  }

  lemma MultisetMembers(values: seq<nat>, s: set<nat>)
    requires multiset(values) == multiset(s)
    ensures forall v :: v in values <==> v in s
    ensures values == [] <==> s == {}
  {
    forall v ensures v in values <==> v in s {
      assert v in values <==> v in multiset(values);
      assert v in s <==> v in multiset(s);
    }
    assert values != [] ==> values[0] in s;
  }

  /** The zero-count nodes, ascending from the initial scan. */
  method InitialReady(remaining: seq<int>) returns (values: seq<nat>)
    ensures multiset(values) == multiset(ZeroCount(remaining, {}))
  {
    values := [];
    ghost var found: set<nat> := {};
    for i := 0 to |remaining|
      invariant multiset(values) == multiset(found)
      invariant found == set v: nat | v < i && remaining[v] == 0
    {
      if remaining[i] == 0 {
        values := values + [i];
        found := found + {i};
      }
    }
    assert found == ZeroCount(remaining, {});
  }

  lemma CancelOne<T>(a: multiset<T>, b: multiset<T>, x: T)
    requires a + multiset{x} == b + multiset{x}
    ensures a == b
  {
    forall y ensures a[y] == b[y] { assert (a + multiset{x})[y] == (b + multiset{x})[y]; }
  }

  /** Takes the least ready node and serves its consumers. */
  method EmitOne(queue: Queue, counts: seq<int>, consumers: seq<seq<nat>>, adjacency: seq<seq<nat>>,
                 ghost done: set<nat>)
      returns (node: nat, remaining: seq<int>)
    requires CleanGraph(adjacency, queue.ids) && Consumers(adjacency, consumers, |adjacency|)
    requires forall d :: 0 <= d < |consumers| ==> Ascending(consumers[d], queue.ids)
    requires Counts(adjacency, counts, done) && DoneClosed(adjacency, done)
    requires queue.values != [] && IsHeap(queue.values, SymbolBefore(queue.ids))
    requires multiset(queue.values) == multiset(ZeroCount(counts, done))
    modifies queue
    ensures node < |adjacency| && node !in done
    ensures Counts(adjacency, remaining, done + {node}) && DoneClosed(adjacency, done + {node})
    ensures IsHeap(queue.values, SymbolBefore(queue.ids))
    ensures multiset(queue.values) == multiset(ZeroCount(remaining, done + {node}))
    ensures Target(adjacency, queue.ids, done) == [Symbol(queue.ids, node)]
            + Target(adjacency, queue.ids, done + {node})
  {
    hide IsHeap, Counts, ZeroCount, Target, DoneClosed, Consumers, SymbolBefore, Ascending, Symbol;
    MultisetMembers(queue.values, ZeroCount(counts, done));
    ghost var before := queue.values;
    node := queue.Pop();
    assert node in multiset(before);
    assert node in before;
    ZeroCountFacts(adjacency, counts, done, node);
    CancelOne(multiset(queue.values), multiset(ZeroCount(counts, done + {node})), node);
    EmitNext(adjacency, queue.ids, counts, done, node);
    ConsumersAt(adjacency, consumers, node);
    AscendingHasNoDuplicates(consumers[node], queue.ids);
    remaining := Serve(queue, counts, consumers[node], node, adjacency, done);
  }

  /**
   * The identifiers emitted are those of the least order, whatever the numbering of the catalog;
   * the queue's comparison count is returned as the code's statistics are.
   */
  method Order(adjacency: seq<seq<nat>>, ids: seq<string>) returns (order: seq<nat>, comparisons: nat)
    requires CleanGraph(adjacency, ids)
    ensures InRange(order, |ids|)
    ensures Names(order, ids) == LeastOrder.Emit(LeastOrder.Elements(ids), NameEdges(EdgeSet(adjacency), ids), {})
    ensures InSpelling(adjacency, ids, order)
  {
    hide IsHeap, Counts, ZeroCount, Target, DoneClosed, Names, Consumers, SymbolBefore, Symbol, Ascending, InSpelling;
    var remaining, consumers := CountDependencies(adjacency, ids);
    var values := InitialReady(remaining);
    var queue := new Queue(values, ids);
    queue.Init();
    ghost var done: set<nat> := {};
    NothingDone(adjacency, ids);
    order := [];
    while queue.values != []
      invariant queue.ids == ids && IsHeap(queue.values, SymbolBefore(ids))
      invariant Counts(adjacency, remaining, done) && DoneClosed(adjacency, done)
      invariant multiset(queue.values) == multiset(ZeroCount(remaining, done))
      invariant InRange(order, |ids|)
      invariant Names(order, ids) + Target(adjacency, ids, done) == Target(adjacency, ids, {})
      decreases Nodes(|adjacency|) - done
    {
      var node;
      node, remaining := EmitOne(queue, remaining, consumers, adjacency, done);
      NamesAppend(order, ids, node);
      order := order + [node];
      done := done + {node};
    }
    MultisetMembers(queue.values, ZeroCount(remaining, done));
    NothingReady(adjacency, ids, remaining, done);
    TargetOfNone(adjacency, ids);
    ReadyInSpelling(adjacency, ids, order);
    comparisons := queue.comparisons;
  }

  /** Of two providers whose dependencies stand before both, the one whose identifier is spelled first comes first. */
  ghost predicate InSpelling(adjacency: seq<seq<nat>>, ids: seq<string>, order: seq<nat>) {
    forall i, j :: 0 <= i < j < |order| && ReadyAt(adjacency, order, i, order[j]) ==>
      StringOrder.SpelledBefore(Symbol(ids, order[i]), Symbol(ids, order[j]))
  }

  ghost predicate ReadyAt(adjacency: seq<seq<nat>>, order: seq<nat>, i: nat, v: nat) {
    i <= |order| && v < |adjacency| && forall d :: d in adjacency[v] ==> d in order[..i]
  }

  lemma ReadyInSpelling(adjacency: seq<seq<nat>>, ids: seq<string>, order: seq<nat>)
    requires CleanGraph(adjacency, ids) && InRange(order, |ids|)
    requires Names(order, ids) == LeastOrder.Emit(LeastOrder.Elements(ids), NameEdges(EdgeSet(adjacency), ids), {})
    ensures InSpelling(adjacency, ids, order)
  {
    var deps, names := NameEdges(EdgeSet(adjacency), ids), Names(order, ids);
    forall i, j | 0 <= i < j < |order| && ReadyAt(adjacency, order, i, order[j])
      ensures StringOrder.SpelledBefore(Symbol(ids, order[i]), Symbol(ids, order[j]))
    {
      hide LeastOrder.Emit, LeastOrder.Ready, StringOrder.SpelledBefore;
      forall d | (names[j], d) in deps ensures d in LeastOrder.Elements(names[..i]) {
        var e :| e in EdgeSet(adjacency) && (Symbol(ids, e.0), Symbol(ids, e.1)) == (names[j], d);
        assert e.1 in adjacency[e.0] && order[j] in order;
        SymbolIsInjective(ids, e.0, order[j]);
        var k :| 0 <= k < i && order[..i][k] == e.1;
        assert names[..i][k] == d;
      }
      assert {} + LeastOrder.Elements(names[..i]) == LeastOrder.Elements(names[..i]);
      LeastOrder.ReadyBySpelling(LeastOrder.Elements(ids), deps, {}, i, j);
    }
  }

  lemma NothingDone(adjacency: seq<seq<nat>>, ids: seq<string>)
    ensures DoneClosed(adjacency, {})
    ensures Names([], ids) + Target(adjacency, ids, {}) == Target(adjacency, ids, {})
  {
  }

  lemma TargetOfNone(adjacency: seq<seq<nat>>, ids: seq<string>)
    ensures Target(adjacency, ids, {})
            == LeastOrder.Emit(LeastOrder.Elements(ids), NameEdges(EdgeSet(adjacency), ids), {})
  {
    assert NameSet({}, ids) == {};
  }

  lemma ZeroCountFacts(adjacency: seq<seq<nat>>, remaining: seq<int>, done: set<nat>, node: nat)
    requires Counts(adjacency, remaining, done) && node in ZeroCount(remaining, done)
    ensures node < |adjacency| && node !in done
    ensures ZeroCount(remaining, done + {node}) == ZeroCount(remaining, done) - {node}
    ensures multiset(ZeroCount(remaining, done)) == multiset(ZeroCount(remaining, done + {node})) + multiset{node}
  {
    assert ZeroCount(remaining, done) == ZeroCount(remaining, done + {node}) + {node};
  }

  lemma ConsumersAt(adjacency: seq<seq<nat>>, consumers: seq<seq<nat>>, node: nat)
    requires Consumers(adjacency, consumers, |adjacency|) && node < |adjacency|
    ensures |consumers| == |adjacency|
    ensures forall v: nat :: v in consumers[node] <==> v < |adjacency| && node in adjacency[v]
  {
  }
}
