/** Re-ordering providers so that transaction managers precede their services (compiler/application/application.go). */
module PolicyOrder {
  import opened Catalog
  import opened Digraph
  import opened StringLists
  import opened Wiring
  import ConstructionOrder
  import DependencyGraph
  import GraphBuild
  import LeastOrder
  import StringOrder
  import Tarjan

  datatype PolicyMethod = PolicyMethod(methodID: string, transactional: bool)

  /** managerID is empty for a service without a transaction manager. */
  datatype Service = Service(providerID: string, managerID: string, methods: seq<PolicyMethod>)

  datatype Outcome = Ordered(providers: seq<Provider>) | PolicyCycle(symbolID: string)

  const ZERO_PROVIDER := Provider("", "", [], [], false, false, 0, Singleton, Bean, Invalid, [], [])

  // ----- The enlarged relation -------------------------------------------------------------------

  ghost function EdgeDeps(edges: seq<Edge>): set<(string, string)> {
    set i | 0 <= i < |edges| && edges[i].dependencyID != ""
            && edges[i].consumerID != "" :: (edges[i].consumerID, edges[i].dependencyID)
  }

  ghost function ManagerDeps(policies: seq<Service>): set<(string, string)> {
    set i | 0 <= i < |policies| && policies[i].managerID != ""
            && policies[i].providerID != "" :: (policies[i].providerID, policies[i].managerID)
  }

  ghost function Consumers(deps: set<(string, string)>): set<string> { set p | p in deps :: p.0 }

  /** The identifiers that are counted: the providers, and whatever else consumes something. */
  ghost function NodesOf(ids: set<string>, deps: set<(string, string)>): set<string> { ids + Consumers(deps) }

  /** Dependencies of c that are not done. */
  ghost function Waiting(deps: set<(string, string)>, c: string, done: set<string>): (r: set<string>)
    ensures forall d :: d in r <==> (c, d) in deps && d !in done
  {
    var r := set p | p in deps && p.0 == c && p.1 !in done :: p.1;
    assert forall d :: (c, d) in deps && d !in done ==> (c, d).0 == c && (c, d).1 in r;
    r
  }

  // ----- The maps --------------------------------------------------------------------------------

  datatype Maps = Maps(adjacency: map<string, set<string>>, indegree: map<string, int>)

  function ConsumersIn(m: Maps, d: string): set<string> { if d in m.adjacency then m.adjacency[d] else {} }

  function Indegree(m: Maps, c: string): int { if c in m.indegree then m.indegree[c] else 0 }

  ghost predicate AdjacencyHolds(m: Maps, deps: set<(string, string)>) {
    forall d, c :: c in ConsumersIn(m, d) <==> (c, d) in deps
  }

  ghost predicate CountsHold(m: Maps, deps: set<(string, string)>, done: set<string>) {
    forall c :: Indegree(m, c) == |Waiting(deps, c, done)|
  }

  ghost predicate Represents(m: Maps, ids: set<string>, deps: set<(string, string)>, done: set<string>) {
    AdjacencyHolds(m, deps) && CountsHold(m, deps, done) && m.indegree.Keys == NodesOf(ids, deps)
  }

  function Add(m: Maps, dependencyID: string, consumerID: string): Maps {
    if dependencyID == "" || consumerID == "" || consumerID in ConsumersIn(m, dependencyID) then m
    else Maps(m.adjacency[dependencyID := ConsumersIn(m, dependencyID) + {consumerID}],
              m.indegree[consumerID := Indegree(m, consumerID) + 1])
  }

  lemma ConsumersGrow(deps: set<(string, string)>, c: string, d: string)
    ensures Consumers(deps + {(c, d)}) == Consumers(deps) + {c}
  {
    forall p | p in deps ensures p.0 in Consumers(deps + {(c, d)}) { assert p in deps + {(c, d)}; }
    assert (c, d) in deps + {(c, d)};
  }

  lemma WaitingGrows(deps: set<(string, string)>, c: string, d: string, x: string)
    requires (c, d) !in deps
    ensures |Waiting(deps + {(c, d)}, x, {})| == |Waiting(deps, x, {})| + (if x == c then 1 else 0)
  {
    assert Waiting(deps + {(c, d)}, x, {}) == Waiting(deps, x, {}) + (if x == c then {d} else {});
  }

  lemma AddKeepsAdjacency(m: Maps, deps: set<(string, string)>, d: string, c: string)
    requires AdjacencyHolds(m, deps) && d != "" && c != ""
    ensures AdjacencyHolds(Add(m, d, c), deps + {(c, d)})
  {
    forall x, y ensures y in ConsumersIn(Add(m, d, c), x) <==> (y, x) in deps + {(c, d)} {
      assert y in ConsumersIn(m, x) <==> (y, x) in deps;
    }
  }

  lemma AddKeepsCounts(m: Maps, deps: set<(string, string)>, d: string, c: string)
    requires CountsHold(m, deps, {}) && d != "" && c != "" && c !in ConsumersIn(m, d) && (c, d) !in deps
    ensures CountsHold(Add(m, d, c), deps + {(c, d)}, {})
  {
    hide Waiting;
    forall x ensures Indegree(Add(m, d, c), x) == |Waiting(deps + {(c, d)}, x, {})| { WaitingGrows(deps, c, d, x); }
  }

  /** Adding a pair once or twice counts it once. */
  lemma AddRepresents(m: Maps, ids: set<string>, deps: set<(string, string)>, d: string, c: string)
    requires Represents(m, ids, deps, {})
    ensures Represents(Add(m, d, c), ids, if d == "" || c == "" then deps else deps + {(c, d)}, {})
  {
    hide Waiting, Consumers, AdjacencyHolds, CountsHold;
    if d != "" && c != "" {
      AdjacencyAt(m, deps, d, c);
      AddKeepsAdjacency(m, deps, d, c);
      if c in ConsumersIn(m, d) {
        assert deps + {(c, d)} == deps;
      } else {
        ConsumersGrow(deps, c, d);
        AddKeepsCounts(m, deps, d, c);
      }
    }
  }

  lemma AdjacencyAt(m: Maps, deps: set<(string, string)>, d: string, c: string)
    requires AdjacencyHolds(m, deps)
    ensures c in ConsumersIn(m, d) <==> (c, d) in deps
  {
  }

  method CountAll(providers: seq<Provider>, edges: seq<Edge>, policies: seq<Service>) returns (m: Maps)
    ensures Represents(m, LeastOrder.Elements(SymbolIDs(providers)), EdgeDeps(edges) + ManagerDeps(policies), {})
  {
    hide Represents;
    ghost var ids := LeastOrder.Elements(SymbolIDs(providers));
    var indegree: map<string, int> := map[];
    for i := 0 to |providers|
      invariant indegree.Keys == LeastOrder.Elements(SymbolIDs(providers)[..i])
      invariant forall c :: c in indegree ==> indegree[c] == 0
    {
      assert SymbolIDs(providers)[..i+1] == SymbolIDs(providers)[..i] + [providers[i].symbolID];
      indegree := indegree[providers[i].symbolID := 0];
    }
    assert SymbolIDs(providers)[..|providers|] == SymbolIDs(providers);
    m := Maps(map[], indegree);
    NothingAdded(m, ids);
    for i := 0 to |edges|
      invariant Represents(m, ids, EdgeDeps(edges[..i]), {})
    {
      AddRepresents(m, ids, EdgeDeps(edges[..i]), edges[i].dependencyID, edges[i].consumerID);
      EdgeDepsStep(edges, i);
      m := Add(m, edges[i].dependencyID, edges[i].consumerID);
    }
    assert edges[..|edges|] == edges;
    assert EdgeDeps(edges) + ManagerDeps(policies[..0]) == EdgeDeps(edges);
    for i := 0 to |policies|
      invariant Represents(m, ids, EdgeDeps(edges) + ManagerDeps(policies[..i]), {})
    {
      ManagerDepsStep(policies, i, EdgeDeps(edges));
      if policies[i].managerID != "" {
        AddRepresents(m, ids, EdgeDeps(edges) + ManagerDeps(policies[..i]), policies[i].managerID,
                      policies[i].providerID);
        m := Add(m, policies[i].managerID, policies[i].providerID);
      }
    }
    assert policies[..|policies|] == policies;
  }

  lemma NothingAdded(m: Maps, ids: set<string>)
    requires m.adjacency == map[] && m.indegree.Keys == ids && forall c :: c in m.indegree ==> m.indegree[c] == 0
    ensures Represents(m, ids, EdgeDeps([]), {})
  {
    assert EdgeDeps([]) == {};
    forall c ensures Waiting({}, c, {}) == {} {}
  }

  lemma EdgeDepsStep(edges: seq<Edge>, i: nat)
    requires i < |edges|
    ensures EdgeDeps(edges[..i+1]) ==
              if edges[i].dependencyID == "" || edges[i].consumerID == "" then EdgeDeps(edges[..i])
              else EdgeDeps(edges[..i]) + {(edges[i].consumerID, edges[i].dependencyID)}
  {
    var a, b := edges[..i], edges[..i+1];
    forall p | p in EdgeDeps(b) ensures p in EdgeDeps(a) || p == (edges[i].consumerID, edges[i].dependencyID) {
      var k :| 0 <= k < |b| && b[k].dependencyID != "" && b[k].consumerID != ""
               && (b[k].consumerID, b[k].dependencyID) == p;
      if k < i { assert a[k] == b[k]; }
    }
    forall p | p in EdgeDeps(a) ensures p in EdgeDeps(b) {
      var k :| 0 <= k < |a| && a[k].dependencyID != "" && a[k].consumerID != ""
               && (a[k].consumerID, a[k].dependencyID) == p;
      assert b[k] == a[k];
    }
    assert b[i] == edges[i];
  }

  lemma ManagerDepsStep(policies: seq<Service>, i: nat, e: set<(string, string)>)
    requires i < |policies|
    ensures e + ManagerDeps(policies[..i+1]) ==
              if policies[i].managerID == "" || policies[i].providerID == "" then e + ManagerDeps(policies[..i])
              else e + ManagerDeps(policies[..i]) + {(policies[i].providerID, policies[i].managerID)}
  {
    var a, b := policies[..i], policies[..i+1];
    forall p | p in ManagerDeps(b) ensures p in ManagerDeps(a) || p == (policies[i].providerID, policies[i].managerID) {
      var k :| 0 <= k < |b| && b[k].managerID != "" && b[k].providerID != "" && (b[k].providerID, b[k].managerID) == p;
      if k < i { assert a[k] == b[k]; }
    }
    forall p | p in ManagerDeps(a) ensures p in ManagerDeps(b) {
      var k :| 0 <= k < |a| && a[k].managerID != "" && a[k].providerID != "" && (a[k].providerID, a[k].managerID) == p;
      assert b[k] == a[k];
    }
    assert b[i] == policies[i];
  }

  // ----- Sorted lists of identifiers -------------------------------------------------------------

  /** A set's members in sorted order, however the set is traversed. */
  method SortedMembers(s: set<string>) returns (list: seq<string>)
    ensures Lists(list, s)
  {
    var rest, values := s, [];
    while rest != {}
      invariant rest <= s && LeastOrder.Elements(values) == s - rest && NoDuplicates(values)
    {
      var x :| x in rest;
      assert x !in LeastOrder.Elements(values);
      assert LeastOrder.Elements(values + [x]) == LeastOrder.Elements(values) + {x};
      values := values + [x];
      rest := rest - {x};
    }
    SortStringsLists(values);
    list := SortStrings(values);
  }

  // ----- Emission --------------------------------------------------------------------------------

  /** Counters while the consumers of `node` are served. */
  ghost predicate CountsServing(m: Maps, deps: set<(string, string)>, done: set<string>, node: string,
                                served: set<string>) {
    forall c :: Indegree(m, c) == |Waiting(deps, c, if c in served || (c, node) !in deps then done + {node} else done)|
  }

  ghost function Zero(m: Maps, done: set<string>): set<string> {
    set c | c in m.indegree && c !in done && m.indegree[c] == 0
  }

  ghost predicate DoneClosed(deps: set<(string, string)>, done: set<string>) {
    forall c :: c in done ==> Waiting(deps, c, done) == {}
  }

  lemma WaitingAfter(deps: set<(string, string)>, c: string, done: set<string>, node: string)
    requires node !in done
    ensures |Waiting(deps, c, done + {node})| == |Waiting(deps, c, done)| - (if (c, node) in deps then 1 else 0)
  {
    assert Waiting(deps, c, done + {node}) == Waiting(deps, c, done) - {node};
  }

  lemma ServingStarts(m: Maps, deps: set<(string, string)>, done: set<string>, node: string)
    requires CountsHold(m, deps, done) && node !in done
    ensures CountsServing(m, deps, done, node, {})
  {
    hide Waiting;
    forall c ensures Indegree(m, c) == |Waiting(deps, c, if (c, node) !in deps then done + {node} else done)| {
      WaitingAfter(deps, c, done, node);
    }
  }

  lemma ServingEnds(m: Maps, deps: set<(string, string)>, done: set<string>, node: string, served: set<string>)
    requires CountsServing(m, deps, done, node, served) && forall c :: c in served <==> (c, node) in deps
    ensures CountsHold(m, deps, done + {node})
  {
    hide Waiting;
  }

  function Decrement(m: Maps, c: string): Maps { Maps(m.adjacency, m.indegree[c := Indegree(m, c) - 1]) }

  lemma ServeOne(m: Maps, deps: set<(string, string)>, done: set<string>, node: string, served: set<string>, c: string)
    requires CountsServing(m, deps, done, node, served) && node !in done && c !in served && (c, node) in deps
    ensures CountsServing(Decrement(m, c), deps, done, node, served + {c})
    ensures Indegree(m, c) > 0
  {
    WaitingAfter(deps, c, done, node);
    assert node in Waiting(deps, c, done);
    hide Waiting;
  }

  lemma ZeroAfterDecrement(m: Maps, done: set<string>, c: string)
    requires c in m.indegree && c !in done && m.indegree[c] > 0
    ensures Zero(Decrement(m, c), done) == if m.indegree[c] == 1 then Zero(m, done) + {c} else Zero(m, done)
    ensures c !in Zero(m, done)
  {
  }

  /** Decrements every consumer of an emitted node and queues those that reach zero. */
  method Serve(m: Maps, ready: seq<string>, node: string, ghost ids: set<string>, ghost deps: set<(string, string)>,
               ghost done: set<string>)
      returns (m': Maps, ready': seq<string>)
    requires Represents(m, ids, deps, done) && DoneClosed(deps, done) && node !in done
    requires Waiting(deps, node, done) == {}
    requires Lists(ready, Zero(m, done + {node}))
    ensures Represents(m', ids, deps, done + {node}) && Lists(ready', Zero(m', done + {node}))
  {
    hide CountsHold, CountsServing, Zero, Lists, Waiting, AdjacencyHolds, DoneClosed;
    var consumers := SortedMembers(ConsumersIn(m, node));
    ListsFacts(consumers, ConsumersIn(m, node));
    ConsumersAreLater(m, ids, deps, done, node);
    m', ready' := m, ready;
    ServingStarts(m, deps, done, node);
    assert LeastOrder.Elements(consumers[..0]) == {};
    for i := 0 to |consumers|
      invariant m'.adjacency == m.adjacency && m'.indegree.Keys == m.indegree.Keys
      invariant CountsServing(m', deps, done, node, LeastOrder.Elements(consumers[..i]))
      invariant Lists(ready', Zero(m', done + {node}))
    {
      var c := consumers[i];
      ConsumerAt(consumers, ConsumersIn(m, node), i);
      ServeOne(m', deps, done, node, LeastOrder.Elements(consumers[..i]), c);
      ZeroAfterDecrement(m', done + {node}, c);
      ghost var zero := Zero(m', done + {node});
      m' := Decrement(m', c);
      if m'.indegree[c] == 0 {
        QueueOne(ready', zero, c);
        ready' := SortStrings(ready' + [c]);
      }
    }
    assert consumers[..|consumers|] == consumers;
    ListedConsumers(consumers, m, deps, node);
    ServingEnds(m', deps, done, node, LeastOrder.Elements(consumers));
    SameAdjacency(m, m', deps);
  }

  lemma SameAdjacency(m: Maps, m': Maps, deps: set<(string, string)>)
    requires AdjacencyHolds(m, deps) && m.adjacency == m'.adjacency
    ensures AdjacencyHolds(m', deps)
  {
    forall d, c ensures c in ConsumersIn(m', d) <==> (c, d) in deps { AdjacencyAt(m, deps, d, c); }
  }

  lemma ListedConsumers(consumers: seq<string>, m: Maps, deps: set<(string, string)>, node: string)
    requires Lists(consumers, ConsumersIn(m, node)) && AdjacencyHolds(m, deps)
    ensures forall c :: c in LeastOrder.Elements(consumers) <==> (c, node) in deps
  {
  }

  lemma ConsumerAt(consumers: seq<string>, s: set<string>, i: nat)
    requires Lists(consumers, s) && NoDuplicates(consumers) && i < |consumers|
    ensures consumers[i] in s && consumers[i] !in LeastOrder.Elements(consumers[..i])
    ensures LeastOrder.Elements(consumers[..i+1]) == LeastOrder.Elements(consumers[..i]) + {consumers[i]}
  {
    assert consumers[i] in LeastOrder.Elements(consumers);
    assert consumers[..i+1] == consumers[..i] + [consumers[i]];
  }

  lemma QueueOne(ready: seq<string>, zero: set<string>, c: string)
    requires Lists(ready, zero) && c !in zero
    ensures Lists(SortStrings(ready + [c]), zero + {c})
  {
    ListsFacts(ready, zero);
    assert c !in LeastOrder.Elements(ready);
    assert LeastOrder.Elements(ready + [c]) == zero + {c};
    SortStringsLists(ready + [c]);
  }

  /** No consumer of a ready node has been emitted, and the node does not consume itself. */
  lemma ConsumersAreLater(m: Maps, ids: set<string>, deps: set<(string, string)>, done: set<string>, node: string)
    requires AdjacencyHolds(m, deps) && m.indegree.Keys == NodesOf(ids, deps)
    requires DoneClosed(deps, done) && node !in done && Waiting(deps, node, done) == {}
    ensures forall c :: c in ConsumersIn(m, node) ==> (c, node) in deps && c in m.indegree && c !in done + {node}
  {
    forall c | c in ConsumersIn(m, node) ensures (c, node) in deps && c in m.indegree && c !in done + {node} {
      assert (c, node) in deps;
      assert node in Waiting(deps, c, done);
      assert (c, node).0 in Consumers(deps);
    }
  }

  lemma ReadyIsZero(m: Maps, ids: set<string>, deps: set<(string, string)>, done: set<string>)
    requires Represents(m, ids, deps, done)
    ensures LeastOrder.Ready(NodesOf(ids, deps), deps, done) == Zero(m, done)
  {
    forall c | c in m.indegree ensures LeastOrder.DependsOnlyOn(deps, c, done) <==> m.indegree[c] == 0 {
      assert Indegree(m, c) == |Waiting(deps, c, done)|;
      assert Waiting(deps, c, done) == {} <==> |Waiting(deps, c, done)| == 0;
      assert LeastOrder.DependsOnlyOn(deps, c, done) <==> Waiting(deps, c, done) == {} by {
        if LeastOrder.DependsOnlyOn(deps, c, done) { assert forall d :: d !in Waiting(deps, c, done); }
      }
    }
  }

  lemma EmitFirst(m: Maps, ids: set<string>, deps: set<(string, string)>, done: set<string>, ready: seq<string>)
    requires Represents(m, ids, deps, done) && DoneClosed(deps, done) && Lists(ready, Zero(m, done))
    ensures ready == [] ==> LeastOrder.Emit(NodesOf(ids, deps), deps, done) == []
    ensures ready != [] ==>
              var node := ready[0];
              && node !in done && Waiting(deps, node, done) == {} && node in NodesOf(ids, deps)
              && LeastOrder.Emit(NodesOf(ids, deps), deps, done) == [node]
                 + LeastOrder.Emit(NodesOf(ids, deps), deps, done + {node})
              && Lists(ready[1..], Zero(m, done + {node})) && DoneClosed(deps, done + {node})
  {
    ReadyIsZero(m, ids, deps, done);
    ListsFacts(ready, Zero(m, done));
    if ready != [] {
      var node := ready[0];
      StringOrder.LeastUnique(node, StringOrder.Least(Zero(m, done)), Zero(m, done));
      assert Zero(m, done + {node}) == Zero(m, done) - {node};
      assert Indegree(m, node) == |Waiting(deps, node, done)|;
      assert Waiting(deps, node, done) == {};
      forall c | c in done + {node} ensures Waiting(deps, c, done + {node}) == {} {
        assert Waiting(deps, c, done + {node}) <= Waiting(deps, c, done);
      }
    }
  }

  function RecordOf(byID: map<string, Provider>, id: string): Provider {
    if id in byID then byID[id] else ZERO_PROVIDER
  }

  function RecordsOf(byID: map<string, Provider>, order: seq<string>): seq<Provider> {
    seq(|order|, i requires 0 <= i < |order| => RecordOf(byID, order[i]))
  }

  /** byID maps each identifier to its last record. */
  ghost predicate Indexes(byID: map<string, Provider>, providers: seq<Provider>) {
    && byID.Keys == LeastOrder.Elements(SymbolIDs(providers))
    && (forall id :: id in byID ==> byID[id] in providers && byID[id].symbolID == id)
  }

  method IndexByID(providers: seq<Provider>) returns (byID: map<string, Provider>)
    ensures Indexes(byID, providers)
  {
    byID := map[];
    for i := 0 to |providers|
      invariant byID.Keys == LeastOrder.Elements(SymbolIDs(providers)[..i])
      invariant forall id :: id in byID ==> byID[id] in providers && byID[id].symbolID == id
    {
      assert SymbolIDs(providers)[..i+1] == SymbolIDs(providers)[..i] + [providers[i].symbolID];
      byID := byID[providers[i].symbolID := providers[i]];
    }
    assert SymbolIDs(providers)[..|providers|] == SymbolIDs(providers);
  }

  method EmitAll(m0: Maps, ghost ids: set<string>, ghost deps: set<(string, string)>)
      returns (order: seq<string>, m: Maps)
    requires Represents(m0, ids, deps, {})
    ensures order == LeastOrder.Emit(NodesOf(ids, deps), deps, {})
    ensures Represents(m, ids, deps, LeastOrder.Elements(order))
  {
    hide Represents, Lists, Zero, DoneClosed, Waiting, LeastOrder.Emit, LeastOrder.Ready;
    m, order := m0, [];
    var ready := InitialReady(m);
    ghost var done: set<string> := {};
    NoneDone(deps);
    while ready != []
      invariant Represents(m, ids, deps, done) && DoneClosed(deps, done) && Lists(ready, Zero(m, done))
      invariant done == LeastOrder.Elements(order)
      invariant order + LeastOrder.Emit(NodesOf(ids, deps), deps, done) == LeastOrder.Emit(NodesOf(ids, deps), deps, {})
      decreases NodesOf(ids, deps) - done
    {
      EmitFirst(m, ids, deps, done, ready);
      var node := ready[0];
      ready := ready[1..];
      assert LeastOrder.Elements(order + [node]) == LeastOrder.Elements(order) + {node};
      order := order + [node];
      m, ready := Serve(m, ready, node, ids, deps, done);
      done := done + {node};
    }
    EmitFirst(m, ids, deps, done, ready);
  }

  lemma NoneDone(deps: set<(string, string)>)
    ensures DoneClosed(deps, {})
  {
  }

  method InitialReady(m: Maps) returns (ready: seq<string>)
    ensures Lists(ready, Zero(m, {}))
  {
    var zero := set c | c in m.indegree && m.indegree[c] == 0;
    assert zero == Zero(m, {});
    ready := SortedMembers(zero);
  }

  // ----- The result ------------------------------------------------------------------------------

  ghost function Nodes(providers: seq<Provider>, edges: seq<Edge>, policies: seq<Service>): set<string> {
    NodesOf(LeastOrder.Elements(SymbolIDs(providers)), EdgeDeps(edges) + ManagerDeps(policies))
  }

  ghost function LeastWithManagers(providers: seq<Provider>, edges: seq<Edge>, policies: seq<Service>): seq<string> {
    LeastOrder.Emit(Nodes(providers, edges, policies), EdgeDeps(edges) + ManagerDeps(policies), {})
  }

  /** The diagnostic names the first transactional method of the first blocked managed service that has one. */
  ghost predicate Blames(providers: seq<Provider>, edges: seq<Edge>, policies: seq<Service>, symbolID: string) {
    var order := LeastWithManagers(providers, edges, policies);
    if exists i, j :: BlockedMethod(order, providers, edges, policies, i, j) then
      exists i, j :: BlockedMethod(order, providers, edges, policies, i, j)
                     && symbolID == policies[i].methods[j].methodID
        && forall k, l :: BlockedMethod(order, providers, edges, policies, k, l) ==> i < k || (i == k && j <= l)
    else symbolID == ""
  }

  ghost predicate BlockedMethod(order: seq<string>, providers: seq<Provider>, edges: seq<Edge>, policies: seq<Service>,
                                i: int, j: int) {
    && 0 <= i < |policies| && policies[i].managerID != ""
    && policies[i].providerID in Nodes(providers, edges, policies) && policies[i].providerID !in order
    && 0 <= j < |policies[i].methods| && policies[i].methods[j].transactional
  }

  /** The outcome: untouched without policies, else the least order of the enlarged relation or a diagnostic. */
  ghost predicate Reordered(providers: seq<Provider>, edges: seq<Edge>, policies: seq<Service>, r: Outcome) {
    var order := LeastWithManagers(providers, edges, policies);
    if policies == [] then r == Ordered(providers)
    else if |order| == |providers| then
      r.Ordered? && exists byID :: (Indexes(byID, providers) && r.providers == RecordsOf(byID, order))
    else r.PolicyCycle? && Blames(providers, edges, policies, r.symbolID)
  }

  method OrderProvidersForPolicies(providers: seq<Provider>, edges: seq<Edge>, policies: seq<Service>)
      returns (r: Outcome)
    ensures Reordered(providers, edges, policies, r)
  {
    if |policies| == 0 { return Ordered(providers); }
    ghost var ids, deps := LeastOrder.Elements(SymbolIDs(providers)), EdgeDeps(edges) + ManagerDeps(policies);
    var byID := IndexByID(providers);
    var m := CountAll(providers, edges, policies);
    var order;
    order, m := EmitAll(m, ids, deps);
    if |order| == |providers| { return Ordered(RecordsOf(byID, order)); }
    var symbolID := Blame(m, policies, providers, edges);
    return PolicyCycle(symbolID);
  }

  lemma IndegreeIsBlocked(m: Maps, ids: set<string>, deps: set<(string, string)>, c: string)
    requires Represents(m, ids, deps, LeastOrder.Elements(LeastOrder.Emit(NodesOf(ids, deps), deps, {})))
    ensures Indegree(m, c) != 0 <==> c in NodesOf(ids, deps) && c !in LeastOrder.Emit(NodesOf(ids, deps), deps, {})
  {
    var order := LeastOrder.Emit(NodesOf(ids, deps), deps, {});
    var done := LeastOrder.Elements(order);
    LeastOrder.EmitStopsStuck(NodesOf(ids, deps), deps, {});
    LeastOrder.EmitIsSound(NodesOf(ids, deps), deps, {});
    assert {} + done == done;
    ReadyIsZero(m, ids, deps, done);
    if c in order {
      var i :| 0 <= i < |order| && order[i] == c;
      LeastOrder.PrefixElements(order, i, |order|);
      assert order[..|order|] == order;
      LeastOrder.WiderDependencies(deps, c, {} + LeastOrder.Elements(order[..i]), done);
      assert forall d :: d !in Waiting(deps, c, done);
      assert Waiting(deps, c, done) == {};
      assert Indegree(m, c) == |Waiting(deps, c, done)|;
    } else if c in NodesOf(ids, deps) {
      assert c !in Zero(m, done);
    }
  }

  method Blame(m: Maps, policies: seq<Service>, ghost providers: seq<Provider>, ghost edges: seq<Edge>)
      returns (symbolID: string)
    requires Represents(m, LeastOrder.Elements(SymbolIDs(providers)), EdgeDeps(edges) + ManagerDeps(policies),
                        LeastOrder.Elements(LeastWithManagers(providers, edges, policies)))
    ensures Blames(providers, edges, policies, symbolID)
  {
    hide Represents;
    ghost var order := LeastWithManagers(providers, edges, policies);
    for i := 0 to |policies|
      invariant forall k, l :: BlockedMethod(order, providers, edges, policies, k, l) ==> i <= k
    {
      var service := policies[i];
      IndegreeIsBlocked(m, LeastOrder.Elements(SymbolIDs(providers)), EdgeDeps(edges) + ManagerDeps(policies),
                        service.providerID);
      if service.managerID != "" && Indegree(m, service.providerID) != 0 {
        for j := 0 to |service.methods|
          invariant forall k, l :: BlockedMethod(order, providers, edges, policies, k, l) ==>
                      i < k || (i == k && j <= l)
        {
          if service.methods[j].transactional {
            assert BlockedMethod(order, providers, edges, policies, i, j);
            return service.methods[j].methodID;
          }
        }
      }
    }
    return "";
  }

  // ----- What re-ordering achieves ---------------------------------------------------------------

  /** Edges and policies of the catalog itself, under unique non-empty identifiers. */
  ghost predicate WithinCatalog(providers: seq<Provider>, edges: seq<Edge>, policies: seq<Service>) {
    var ids := SymbolIDs(providers);
    && NoDuplicates(ids) && "" !in ids
    && (forall i :: 0 <= i < |edges| ==> edges[i].consumerID in ids && edges[i].dependencyID in ids)
    && (forall i :: 0 <= i < |policies| ==>
          policies[i].providerID in ids && (policies[i].managerID == "" || policies[i].managerID in ids))
  }

  ghost function Enlarged(edges: seq<Edge>, policies: seq<Service>): set<(string, string)> {
    EdgeDeps(edges) + ManagerDeps(policies)
  }

  lemma NodesAreProviders(providers: seq<Provider>, edges: seq<Edge>, policies: seq<Service>)
    requires WithinCatalog(providers, edges, policies)
    ensures Nodes(providers, edges, policies) == LeastOrder.Elements(SymbolIDs(providers))
    ensures forall c, d :: (c, d) in Enlarged(edges, policies) ==>
              c in LeastOrder.Elements(SymbolIDs(providers)) && d in LeastOrder.Elements(SymbolIDs(providers))
  {
  }

  lemma {:induction false} CountDistinct(s: seq<string>)
    requires NoDuplicates(s)
    ensures |LeastOrder.Elements(s)| == |s|
  {
    if s != [] {
      var k := |s| - 1;
      CountDistinct(s[..k]);
      assert s == s[..k] + [s[k]];
      assert LeastOrder.Elements(s) == LeastOrder.Elements(s[..k]) + {s[k]};
      assert s[k] !in LeastOrder.Elements(s[..k]);
    } else {
      assert LeastOrder.Elements(s) == {};
    }
  }

  lemma SubsetOfSameSize(a: set<string>, b: set<string>)
    requires a <= b && |a| == |b|
    ensures a == b
  {
    forall x | x in b ensures x in a {
      if x !in a { SubsetIsSmaller(a + {x}, b); }
    }
  }

  /** A full-length emission is a complete one. */
  lemma FullLengthIsComplete(providers: seq<Provider>, edges: seq<Edge>, policies: seq<Service>)
    requires WithinCatalog(providers, edges, policies)
    ensures |LeastWithManagers(providers, edges, policies)| == |providers| <==> !Cyclic(Enlarged(edges, policies))
  {
    hide Cyclic, EdgeDeps, ManagerDeps;
    var ids := SymbolIDs(providers);
    var order := LeastWithManagers(providers, edges, policies);
    NodesAreProviders(providers, edges, policies);
    LeastOrder.EmitIsSound(LeastOrder.Elements(ids), Enlarged(edges, policies), {});
    LeastOrder.CompleteIffAcyclic(LeastOrder.Elements(ids), Enlarged(edges, policies));
    CountDistinct(order);
    CountDistinct(ids);
    if |order| == |providers| { SubsetOfSameSize(LeastOrder.Elements(order), LeastOrder.Elements(ids)); }
  }

  lemma RecordsNamed(byID: map<string, Provider>, providers: seq<Provider>, order: seq<string>)
    requires Indexes(byID, providers) && forall i :: 0 <= i < |order| ==> order[i] in SymbolIDs(providers)
    ensures SymbolIDs(RecordsOf(byID, order)) == order
    ensures forall p :: p in RecordsOf(byID, order) ==> p in providers
  {
    forall i | 0 <= i < |order|
      ensures order[i] in byID
    {
      assert order[i] in LeastOrder.Elements(SymbolIDs(providers));
    }
  }

  /**
   * With at least one policy, re-ordering fails exactly when the graph edges together with the
   * manager-before-service edges have a cycle; otherwise it lists the catalog's own records in the least
   * topological order of that enlarged relation.
   */
  lemma ReorderedIsLeastOrder(providers: seq<Provider>, edges: seq<Edge>, policies: seq<Service>, r: Outcome)
    requires WithinCatalog(providers, edges, policies) && policies != [] && Reordered(providers, edges, policies, r)
    ensures r.PolicyCycle? <==> Cyclic(Enlarged(edges, policies))
    ensures r.Ordered? ==>
              && SymbolIDs(r.providers)
                 == LeastOrder.Emit(LeastOrder.Elements(SymbolIDs(providers)), Enlarged(edges, policies), {})
              && LeastOrder.Topological(SymbolIDs(r.providers), LeastOrder.Elements(SymbolIDs(providers)),
                                        Enlarged(edges, policies))
              && forall p :: p in r.providers ==> p in providers
  {
    hide Cyclic, EdgeDeps, ManagerDeps, Blames;
    FullLengthIsComplete(providers, edges, policies);
    NodesAreProviders(providers, edges, policies);
    var nodes, deps := LeastOrder.Elements(SymbolIDs(providers)), Enlarged(edges, policies);
    LeastOrder.CompleteIffAcyclic(nodes, deps);
    if r.Ordered? {
      var order := LeastWithManagers(providers, edges, policies);
      var byID :| Indexes(byID, providers) && r.providers == RecordsOf(byID, order);
      forall i | 0 <= i < |order|
        ensures order[i] in SymbolIDs(providers)
      {
        assert order[i] in LeastOrder.Elements(order);
      }
      RecordsNamed(byID, providers, order);
    }
  }

  lemma SameNamesSameRecords(a: seq<Provider>, b: seq<Provider>)
    requires NoDuplicates(SymbolIDs(a)) && SymbolIDs(b) == SymbolIDs(a) && forall p :: p in b ==> p in a
    ensures a == b
  {
    forall i | 0 <= i < |a| ensures a[i] == b[i] {
      assert |b| == |SymbolIDs(b)|;
      assert b[i] in b;
      var k :| 0 <= k < |a| && a[k] == b[i];
      assert SymbolIDs(a)[k] == SymbolIDs(b)[i] == SymbolIDs(a)[i];
    }
  }

  /** Every managed service stands after its manager. */
  ghost predicate ManagersFirst(ids: seq<string>, policies: seq<Service>) {
    forall c, d :: (c, d) in ManagerDeps(policies) ==> StandsBefore(ids, d, c)
  }

  ghost predicate StandsBefore(ids: seq<string>, d: string, c: string) {
    exists i, j :: 0 <= i < j < |ids| && ids[i] == d && ids[j] == c
  }

  lemma {:induction false} TopologicalIsAcyclic(order: seq<string>, nodes: set<string>, deps: set<(string, string)>)
    requires LeastOrder.Topological(order, nodes, deps) && forall c, d :: (c, d) in deps ==> c in nodes
    ensures !Cyclic(deps)
  {
    if Cyclic(deps) {
      var a, b :| (a, b) in deps && Reaches(deps, b, a);
      assert a in LeastOrder.Elements(order);
      LeastOrder.OrderedIsNotOnCycle(order, deps, a, b);
    }
  }

  /** A least order that happens to respect more dependencies is the least order of all of them. */
  lemma LeastOfMore(nodes: set<string>, few: set<(string, string)>, many: set<(string, string)>)
    requires few <= many && forall c, d :: (c, d) in many ==> c in nodes && d in nodes
    requires LeastOrder.Topological(LeastOrder.Emit(nodes, few, {}), nodes, many)
    ensures LeastOrder.Emit(nodes, many, {}) == LeastOrder.Emit(nodes, few, {})
  {
    hide Cyclic, LeastOrder.LexBefore, LeastOrder.Emit;
    var a, b := LeastOrder.Emit(nodes, few, {}), LeastOrder.Emit(nodes, many, {});
    TopologicalIsAcyclic(a, nodes, many);
    LeastOrder.EmitIsTheLeastTopologicalOrder(nodes, many, a);
    forall i | 0 <= i < |b| ensures LeastOrder.DependsOnlyOn(few, b[i], {} + LeastOrder.Elements(b[..i])) {
      assert LeastOrder.DependsOnlyOn(many, b[i], {} + LeastOrder.Elements(b[..i]));
    }
    assert nodes - {} == nodes;
    LeastOrder.EmitIsLeast(nodes, few, {}, b);
    if a != b { LeastOrder.LexBeforeIsAsymmetric(a, b); }
  }

  lemma RespectsManagers(ids: seq<string>, deps: set<(string, string)>, policies: seq<Service>)
    requires NoDuplicates(ids) && LeastOrder.DependenciesFirst(ids, deps, {})
    requires forall c, d :: (c, d) in ManagerDeps(policies) ==> c in ids
    ensures ManagersFirst(ids, policies) <==> LeastOrder.DependenciesFirst(ids, deps + ManagerDeps(policies), {})
  {
    hide ManagerDeps;
    if ManagersFirst(ids, policies) {
      forall k | 0 <= k < |ids|
        ensures LeastOrder.DependsOnlyOn(deps + ManagerDeps(policies), ids[k], {} + LeastOrder.Elements(ids[..k]))
      {
        forall d | (ids[k], d) in deps + ManagerDeps(policies) ensures d in LeastOrder.Elements(ids[..k]) {
          if (ids[k], d) in deps {
            assert LeastOrder.DependsOnlyOn(deps, ids[k], {} + LeastOrder.Elements(ids[..k]));
          } else {
            assert StandsBefore(ids, d, ids[k]);
            var i, j :| 0 <= i < j < |ids| && ids[i] == d && ids[j] == ids[k];
            assert ids[..k][i] == d;
          }
        }
      }
    }
    if LeastOrder.DependenciesFirst(ids, deps + ManagerDeps(policies), {}) {
      forall c, d | (c, d) in ManagerDeps(policies) ensures StandsBefore(ids, d, c) {
        var j :| 0 <= j < |ids| && ids[j] == c;
        assert LeastOrder.DependsOnlyOn(deps + ManagerDeps(policies), ids[j], {} + LeastOrder.Elements(ids[..j]));
        var i :| 0 <= i < j && ids[..j][i] == d;
      }
    }
  }

  /**
   * Two algorithms, one order: given providers already in the graph's own least order, the list stays exactly as
   * the heap-based construction order produced it if and only if every managed service already stands after its
   * manager.
   */
  lemma ManagersKeepTheOrderIff(providers: seq<Provider>, edges: seq<Edge>, policies: seq<Service>, r: Outcome)
    requires WithinCatalog(providers, edges, policies) && Reordered(providers, edges, policies, r)
    requires SymbolIDs(providers) == LeastOrder.Emit(LeastOrder.Elements(SymbolIDs(providers)), EdgeDeps(edges), {})
    ensures r == Ordered(providers) <==> ManagersFirst(SymbolIDs(providers), policies)
  {
    hide Cyclic, EdgeDeps, ManagerDeps, ManagersFirst, LeastOrder.Emit, Reordered;
    var ids, nodes := SymbolIDs(providers), LeastOrder.Elements(SymbolIDs(providers));
    if policies == [] {
      NoManagers(providers, edges, policies, r);
    } else {
      NodesAreProviders(providers, edges, policies);
      LeastOrder.CompleteIffAcyclic(nodes, EdgeDeps(edges));
      LeastOrder.EmitIsSound(nodes, EdgeDeps(edges), {});
      RespectsManagers(ids, EdgeDeps(edges), policies);
      ReorderedIsLeastOrder(providers, edges, policies, r);
      if ManagersFirst(ids, policies) {
        TopologicalIsAcyclic(ids, nodes, Enlarged(edges, policies));
        LeastOfMore(nodes, EdgeDeps(edges), Enlarged(edges, policies));
        SameNamesSameRecords(providers, r.providers);
      }
    }
  }

  lemma NoManagers(providers: seq<Provider>, edges: seq<Edge>, policies: seq<Service>, r: Outcome)
    requires policies == [] && Reordered(providers, edges, policies, r)
    ensures r == Ordered(providers) && ManagersFirst(SymbolIDs(providers), policies)
  {
  }

  /** In particular when managers add no new dependency. */
  lemma RedundantManagersKeepTheOrder(providers: seq<Provider>, edges: seq<Edge>, policies: seq<Service>, r: Outcome)
    requires WithinCatalog(providers, edges, policies) && Reordered(providers, edges, policies, r)
    requires SymbolIDs(providers) == LeastOrder.Emit(LeastOrder.Elements(SymbolIDs(providers)), EdgeDeps(edges), {})
    requires ManagerDeps(policies) <= EdgeDeps(edges)
    ensures r == Ordered(providers)
  {
    hide EdgeDeps, ManagerDeps, ManagersFirst, LeastOrder.Emit, Reordered;
    var ids := SymbolIDs(providers);
    LeastOrder.EmitIsSound(LeastOrder.Elements(ids), EdgeDeps(edges), {});
    NodesAreProviders(providers, edges, policies);
    assert EdgeDeps(edges) + ManagerDeps(policies) == EdgeDeps(edges);
    RespectsManagers(ids, EdgeDeps(edges), policies);
    ManagersKeepTheOrderIff(providers, edges, policies, r);
  }

  /** The records of a build's construction order. */
  function Constructed(g: GraphBuild.Result): seq<Provider> {
    seq(|g.order|,
        i requires 0 <= i < |g.order| => if g.order[i] < |g.providers| then g.providers[g.order[i]] else ZERO_PROVIDER)
  }

  lemma ConstructedNames(providers: seq<Provider>, g: GraphBuild.Result)
    requires GraphBuild.Built(providers, g)
    ensures SymbolIDs(Constructed(g)) == ConstructionOrder.Names(g.order, SymbolIDs(providers))
  {
    hide GraphBuild.AllSettled, GraphBuild.OnlyInputs, GraphBuild.OnlyInputDiagnostics, GraphBuild.CyclesReported,
         Cyclic, DependencyGraph.SoundEdges;
    forall i | 0 <= i < |g.order|
      ensures SymbolIDs(Constructed(g))[i] == Tarjan.Symbol(SymbolIDs(providers), g.order[i])
    {
      assert g.order[i] in g.order;
    }
  }

  lemma EdgeDepsAreDependsOn(edges: seq<Edge>)
    requires forall i :: 0 <= i < |edges| ==> edges[i].consumerID != "" && edges[i].dependencyID != ""
    ensures EdgeDeps(edges) == DependencyGraph.DependsOn(edges)
  {
  }

  /**
   * From a diagnostic-free build: re-ordering is the least order of the enlarged relation or a diagnostic, and it
   * returns the heap-based construction order unchanged exactly when that has every manager before its services.
   */
  lemma BuildThenReorder(catalog: seq<Provider>, g: GraphBuild.Result, policies: seq<Service>, r: Outcome)
    requires CatalogReady(catalog) && "" !in SymbolIDs(catalog) && GraphBuild.Built(catalog, g) && g.diagnostics == []
    requires forall i :: 0 <= i < |policies| ==>
               policies[i].providerID in SymbolIDs(catalog)
               && (policies[i].managerID == "" || policies[i].managerID in SymbolIDs(catalog))
    requires Reordered(Constructed(g), g.edges, policies, r)
    ensures WithinCatalog(Constructed(g), g.edges, policies)
    ensures policies != [] ==> (r.PolicyCycle? <==> Cyclic(DependencyGraph.DependsOn(g.edges) + ManagerDeps(policies)))
    ensures r == Ordered(Constructed(g)) <==> ManagersFirst(SymbolIDs(Constructed(g)), policies)
    ensures ManagerDeps(policies) <= DependencyGraph.DependsOn(g.edges) ==> r == Ordered(Constructed(g))
  {
    hide GraphBuild.AllSettled, GraphBuild.OnlyInputs, GraphBuild.OnlyInputDiagnostics, GraphBuild.CyclesReported,
         Cyclic, Reordered, ManagerDeps, EdgeDeps, ManagersFirst;
    var ids, names := SymbolIDs(catalog), SymbolIDs(Constructed(g));
    ConstructedNames(catalog, g);
    assert LeastOrder.Elements(names) == LeastOrder.Elements(ids);
    forall x ensures x in names <==> x in ids {
      assert x in names <==> x in LeastOrder.Elements(names);
      assert x in ids <==> x in LeastOrder.Elements(ids);
    }
    forall i | 0 <= i < |g.edges| ensures g.edges[i].consumerID in ids && g.edges[i].dependencyID in ids {
      assert DependencyGraph.SoundEdge(catalog, g.edges[i]);
      assert ids[g.edges[i].consumer] == g.edges[i].consumerID && ids[g.edges[i].dependency] == g.edges[i].dependencyID;
    }
    EdgeDepsAreDependsOn(g.edges);
    if policies != [] { ReorderedIsLeastOrder(Constructed(g), g.edges, policies, r); }
    ManagersKeepTheOrderIff(Constructed(g), g.edges, policies, r);
    if ManagerDeps(policies) <= DependencyGraph.DependsOn(g.edges) {
      RedundantManagersKeepTheOrder(Constructed(g), g.edges, policies, r);
    }
  }
}
