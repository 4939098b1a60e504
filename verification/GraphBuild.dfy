/** The whole graph build: wiring, cycle diagnostics, construction order (compiler/graph/build.go: Build). */
module GraphBuild {
  import opened Catalog
  import opened Digraph
  import opened Sorting
  import opened SymbolLists
  import opened Tarjan
  import opened Wiring
  import opened DependencyGraph
  import opened ConstructionOrder
  import StringOrder
  import LeastOrder
  import CycleWitness
  import TypeIndex

  // ----- Cycles on identifiers and on indices ----------------------------------------------------

  ghost function IndexOf(ids: seq<string>, name: string): (r: nat)
    ensures name in ids ==> r < |ids| && ids[r] == name
  {
    if name in ids then var v: nat :| v < |ids| && ids[v] == name; v else 0
  }

  lemma IndexOfSymbol(ids: seq<string>, v: nat)
    requires NoDuplicates(ids) && v < |ids|
    ensures IndexOf(ids, Symbol(ids, v)) == v
  {
    assert ids[v] == Symbol(ids, v) && ids[v] in ids;
  }

  ghost predicate EdgesWithin(e: set<(nat, nat)>, n: nat) { forall p :: p in e ==> p.0 < n && p.1 < n }

  lemma NamedPath(e: set<(nat, nat)>, ids: seq<string>, p: seq<nat>, a: nat, b: nat)
    requires PathFromTo(e, p, a, b)
    ensures PathFromTo(NameEdges(e, ids), Names(p, ids), Symbol(ids, a), Symbol(ids, b))
  {
    var q := Names(p, ids);
    forall i, j | 0 <= i < j < |q| && j == i + 1 ensures (q[i], q[j]) in NameEdges(e, ids) {
      assert (p[i], p[j]) in e;
    }
  }

  lemma UnnamedPath(e: set<(nat, nat)>, ids: seq<string>, p: seq<string>, a: nat, b: nat)
    requires NoDuplicates(ids) && EdgesWithin(e, |ids|) && a < |ids| && b < |ids|
    requires PathFromTo(NameEdges(e, ids), p, Symbol(ids, a), Symbol(ids, b))
    ensures Reaches(e, a, b)
  {
    var q: seq<nat> := seq(|p|, i requires 0 <= i < |p| => IndexOf(ids, p[i]));
    forall i, j | 0 <= i < j < |q| && j == i + 1 ensures (q[i], q[j]) in e {
      assert (p[i], p[j]) in NameEdges(e, ids);
      var x :| x in e && (Symbol(ids, x.0), Symbol(ids, x.1)) == (p[i], p[j]);
      IndexOfSymbol(ids, x.0);
      IndexOfSymbol(ids, x.1);
    }
    IndexOfSymbol(ids, a);
    IndexOfSymbol(ids, b);
    assert PathFromTo(e, q, a, b);
  }

  /** Unique identifiers carry reachability over in both directions. */
  lemma ReachesByName(e: set<(nat, nat)>, ids: seq<string>, a: nat, b: nat)
    requires NoDuplicates(ids) && EdgesWithin(e, |ids|) && a < |ids| && b < |ids|
    ensures Reaches(e, a, b) <==> Reaches(NameEdges(e, ids), Symbol(ids, a), Symbol(ids, b))
  {
    if Reaches(e, a, b) {
      var p :| PathFromTo(e, p, a, b);
      NamedPath(e, ids, p, a, b);
    }
    if Reaches(NameEdges(e, ids), Symbol(ids, a), Symbol(ids, b)) {
      var p :| PathFromTo(NameEdges(e, ids), p, Symbol(ids, a), Symbol(ids, b));
      UnnamedPath(e, ids, p, a, b);
    }
  }

  lemma MutualByName(e: set<(nat, nat)>, ids: seq<string>, a: nat, b: nat)
    requires NoDuplicates(ids) && EdgesWithin(e, |ids|) && a < |ids| && b < |ids|
    ensures Mutual(e, a, b) <==> Mutual(NameEdges(e, ids), Symbol(ids, a), Symbol(ids, b))
  {
    ReachesByName(e, ids, a, b);
    ReachesByName(e, ids, b, a);
  }

  lemma ReachedIsNamed(e: set<(nat, nat)>, ids: seq<string>, a: nat, name: string) returns (v: nat)
    requires EdgesWithin(e, |ids|) && a < |ids| && Reaches(NameEdges(e, ids), Symbol(ids, a), name)
    ensures v < |ids| && Symbol(ids, v) == name
  {
    var p :| PathFromTo(NameEdges(e, ids), p, Symbol(ids, a), name);
    if |p| == 1 { return a; }
    assert (p[|p|-2], p[|p|-1]) in NameEdges(e, ids);
    var x :| x in e && (Symbol(ids, x.0), Symbol(ids, x.1)) == (p[|p|-2], p[|p|-1]);
    v := x.1;
  }

  /** A printed cycle: real dependencies from an identifier back to itself, repeating no other. */
  ghost predicate PrintedCycle(deps: set<(string, string)>, path: seq<string>) {
    |path| >= 2 && PathFromTo(deps, path, path[0], path[0]) && NoDuplicates(path[1..])
  }

  lemma CyclePrints(e: set<(nat, nat)>, ids: seq<string>, start: nat, p: seq<nat>)
    requires NoDuplicates(ids) && EdgesWithin(e, |ids|) && CycleWitness.SimpleCycle(e, start, p)
    ensures PrintedCycle(NameEdges(e, ids), Names(p, ids))
  {
    NamedPath(e, ids, p, start, start);
    var q := Names(p, ids);
    forall i | 0 <= i < |p| ensures p[i] < |ids| {
      if i + 1 < |p| { assert (p[i], p[i+1]) in e; } else { assert (p[i-1], p[i]) in e; }
    }
    forall i, j | 0 <= i < j < |q[1..]| ensures q[1..][i] != q[1..][j] {
      assert p[1..][i] != p[1..][j];
      if q[i+1] == q[j+1] { SymbolIsInjective(ids, p[i+1], p[j+1]); }
    }
  }

  // ----- Clean adjacency lists -------------------------------------------------------------------

  /** v's list names exactly the targets of v's edges. */
  ghost predicate Mirrors(edges: seq<Edge>, list: seq<nat>, v: nat) {
    forall d :: d in list <==> d in TargetsOf(edges, v)
  }

  method CleanAdjacency(edges: seq<Edge>, raw: seq<seq<nat>>, providers: seq<Provider>)
      returns (adjacency: seq<seq<nat>>)
    requires NoDuplicates(SymbolIDs(providers)) && SoundEdges(providers, edges)
    requires |raw| == |providers| && Adjacent(edges, raw)
    ensures CleanGraph(adjacency, SymbolIDs(providers))
    ensures forall v :: 0 <= v < |adjacency| ==> Mirrors(edges, adjacency[v], v)
  {
    hide SoundEdges, TargetsOf, Ascending;
    adjacency := raw;
    for v := 0 to |adjacency|
      invariant |adjacency| == |raw|
      invariant forall w :: v <= w < |raw| ==> adjacency[w] == raw[w]
      invariant forall w :: 0 <= w < v ==>
                  Ascending(adjacency[w], SymbolIDs(providers)) && Mirrors(edges, adjacency[w], w)
    {
      TargetsInRange(providers, edges, v);
      var list := SortedUnique(adjacency[v], SymbolIDs(providers));
      adjacency := adjacency[v := list];
    }
    forall v | 0 <= v < |adjacency| ensures NoDuplicates(adjacency[v]) && InRange(adjacency[v], |providers|) {
      AscendingHasNoDuplicates(adjacency[v], SymbolIDs(providers));
      TargetsInRange(providers, edges, v);
    }
    forall v, k | 0 <= v < |adjacency| && 0 <= k < |adjacency[v]| ensures adjacency[v][k] < |adjacency| {
      assert adjacency[v][k] in adjacency[v];
    }
  }

  lemma TargetsInRange(providers: seq<Provider>, edges: seq<Edge>, v: nat)
    requires SoundEdges(providers, edges)
    ensures InRange(TargetsOf(edges, v), |providers|)
  {
    forall d | d in TargetsOf(edges, v) ensures d < |providers| {
      TargetsAreDependencies(edges, v, d);
      var i :| 0 <= i < |edges| && edges[i].consumer == v && edges[i].dependency == d;
      assert SoundEdge(providers, edges[i]);
    }
  }

  /** The adjacency lists and the reported edges are the same relation. */
  lemma AdjacencyIsDependsOn(providers: seq<Provider>, edges: seq<Edge>, adjacency: seq<seq<nat>>)
    requires SoundEdges(providers, edges) && |adjacency| == |providers|
    requires forall v :: 0 <= v < |adjacency| ==> Mirrors(edges, adjacency[v], v)
    ensures NameEdges(EdgeSet(adjacency), SymbolIDs(providers)) == DependsOn(edges)
  {
    var ids := SymbolIDs(providers);
    forall p | p in DependsOn(edges) ensures p in NameEdges(EdgeSet(adjacency), ids) {
      var i :| 0 <= i < |edges| && (edges[i].consumerID, edges[i].dependencyID) == p;
      var e := edges[i];
      assert SoundEdge(providers, e);
      TargetsAreDependencies(edges, e.consumer, e.dependency);
      assert e.dependency in adjacency[e.consumer];
      assert (e.consumer, e.dependency) in EdgeSet(adjacency);
    }
    forall p | p in NameEdges(EdgeSet(adjacency), ids) ensures p in DependsOn(edges) {
      var x :| x in EdgeSet(adjacency) && (Symbol(ids, x.0), Symbol(ids, x.1)) == p;
      assert x.1 in adjacency[x.0];
      TargetsAreDependencies(edges, x.0, x.1);
      var i :| 0 <= i < |edges| && edges[i].consumer == x.0 && edges[i].dependency == x.1;
      assert SoundEdge(providers, edges[i]);
    }
  }

  lemma CleanEdgesWithin(adjacency: seq<seq<nat>>)
    requires ValidGraph(adjacency)
    ensures EdgesWithin(EdgeSet(adjacency), |adjacency|)
  {
    forall p | p in EdgeSet(adjacency) ensures p.0 < |adjacency| && p.1 < |adjacency| {
      assert p.1 in adjacency[p.0];
    }
  }

  // ----- The build -------------------------------------------------------------------------------

  datatype Result = Result(providers: seq<Provider>, edges: seq<Edge>, order: seq<nat>, diagnostics: seq<Diagnostic>)

  function ByConsumer(): (Edge, Edge) -> bool { (a: Edge, b: Edge) => StringOrder.Less(a.consumerID, b.consumerID) }

  function ByParameter(): (Edge, Edge) -> bool { (a: Edge, b: Edge) => a.parameterIndex < b.parameterIndex }

  function ByPosition(): (Edge, Edge) -> bool { (a: Edge, b: Edge) => a.collectionIndex < b.collectionIndex }

  function ByTarget(): (Edge, Edge) -> bool { (a: Edge, b: Edge) => StringOrder.Less(a.dependencyID, b.dependencyID) }

  function EdgeBefore(): (Edge, Edge) -> bool {
    ThenBy<Edge>(ByConsumer(), ThenBy<Edge>(ByParameter(), ThenBy<Edge>(ByPosition(), ByTarget())))
  }

  function KindLabel(d: Diagnostic): string {
    match d
    case MissingDependency(_, _) => "missing-dependency"
    case AmbiguousDependency(_, _, _) => "ambiguous-dependency"
    case DuplicateCollectionName(_, _, _) => "duplicate-collection-name"
    case ScopeMismatch(_, _, _) => "scope-mismatch"
    case CycleFound(_, _, _) => "cycle"
  }

  function ByProvider(): (Diagnostic, Diagnostic) -> bool {
    (a: Diagnostic, b: Diagnostic) => StringOrder.Less(a.providerID, b.providerID)
  }

  function ByKind(): (Diagnostic, Diagnostic) -> bool {
    (a: Diagnostic, b: Diagnostic) => StringOrder.Less(KindLabel(a), KindLabel(b))
  }

  function DiagnosticBefore(): (Diagnostic, Diagnostic) -> bool { ThenBy<Diagnostic>(ByProvider(), ByKind()) }

  /** What the order of edges means: by consumer, then parameter, then position, then dependency. */
  ghost predicate EdgeUpTo(a: Edge, b: Edge) {
    || StringOrder.SpelledBefore(a.consumerID, b.consumerID)
    || (a.consumerID == b.consumerID
        && (|| a.parameterIndex < b.parameterIndex
            || (a.parameterIndex == b.parameterIndex
                && (|| a.collectionIndex < b.collectionIndex
                    || (a.collectionIndex == b.collectionIndex
                        && (a.dependencyID == b.dependencyID
                            || StringOrder.SpelledBefore(a.dependencyID, b.dependencyID)))))))
  }

  /** The kinds in the order of their names. */
  function KindRank(d: Diagnostic): nat {
    match d
    case AmbiguousDependency(_, _, _) => 0
    case CycleFound(_, _, _) => 1
    case DuplicateCollectionName(_, _, _) => 2
    case MissingDependency(_, _) => 3
    case ScopeMismatch(_, _, _) => 4
  }

  ghost predicate DiagnosticUpTo(a: Diagnostic, b: Diagnostic) {
    || StringOrder.SpelledBefore(a.providerID, b.providerID)
    || (a.providerID == b.providerID && KindRank(a) <= KindRank(b))
  }

  ghost predicate InReportOrder(edges: seq<Edge>, diagnostics: seq<Diagnostic>) {
    && (forall i, j :: 0 <= i < j < |edges| ==> EdgeUpTo(edges[i], edges[j]))
    && forall i, j :: 0 <= i < j < |diagnostics| ==> DiagnosticUpTo(diagnostics[i], diagnostics[j])
  }

  lemma ReportOrdersAreStrictWeak()
    ensures StrictWeakOrder(EdgeBefore()) && StrictWeakOrder(DiagnosticBefore())
  {
    KeyedOrderIsStrictWeak(ByConsumer(), (e: Edge) => e.consumerID);
    KeyedOrderIsStrictWeak(ByTarget(), (e: Edge) => e.dependencyID);
    IntOrderIsStrictWeak(ByParameter(), (e: Edge) => e.parameterIndex);
    IntOrderIsStrictWeak(ByPosition(), (e: Edge) => e.collectionIndex);
    KeyedOrderIsStrictWeak(ByProvider(), (d: Diagnostic) => d.providerID);
    KeyedOrderIsStrictWeak(ByKind(), d => KindLabel(d));
    hide StrictWeakOrder, ThenBy, ByConsumer, ByTarget, ByParameter, ByPosition, ByProvider, ByKind;
    ThenByIsStrictWeak<Edge>(ByPosition(), ByTarget());
    ThenByIsStrictWeak<Edge>(ByParameter(), ThenBy<Edge>(ByPosition(), ByTarget()));
    ThenByIsStrictWeak<Edge>(ByConsumer(), ThenBy<Edge>(ByParameter(), ThenBy<Edge>(ByPosition(), ByTarget())));
    ThenByIsStrictWeak<Diagnostic>(ByProvider(), ByKind());
  }

  lemma EdgeNotBefore(a: Edge, b: Edge)
    requires !EdgeBefore()(b, a)
    ensures EdgeUpTo(a, b)
  {
    hide StringOrder.Less, StringOrder.SpelledBefore;
    StringOrder.LessTotal(a.consumerID, b.consumerID);
    StringOrder.LessTotal(a.dependencyID, b.dependencyID);
    StringOrder.LessIffSpelledBefore(a.consumerID, b.consumerID);
    StringOrder.LessIffSpelledBefore(a.dependencyID, b.dependencyID);
  }

  lemma DiagnosticNotBefore(a: Diagnostic, b: Diagnostic)
    requires !DiagnosticBefore()(b, a)
    ensures DiagnosticUpTo(a, b)
  {
    hide StringOrder.SpelledBefore;
    StringOrder.LessTotal(a.providerID, b.providerID);
    StringOrder.LessIffSpelledBefore(a.providerID, b.providerID);
    assert KindRank(b) < KindRank(a) ==> StringOrder.Less(KindLabel(b), KindLabel(a));
  }

  /** Sorting puts edges and diagnostics into the order they are reported in. */
  lemma SortedIsInReportOrder(edges: seq<Edge>, diagnostics: seq<Diagnostic>)
    ensures InReportOrder(StableSort(edges, EdgeBefore()), StableSort(diagnostics, DiagnosticBefore()))
  {
    hide StableSort, StrictWeakOrder, EdgeBefore, DiagnosticBefore, EdgeUpTo, DiagnosticUpTo;
    ReportOrdersAreStrictWeak();
    StableSortSorted(edges, EdgeBefore());
    StableSortSorted(diagnostics, DiagnosticBefore());
    var es, ds := StableSort(edges, EdgeBefore()), StableSort(diagnostics, DiagnosticBefore());
    forall i, j | 0 <= i < j < |es| ensures EdgeUpTo(es[i], es[j]) { EdgeNotBefore(es[i], es[j]); }
    forall i, j | 0 <= i < j < |ds| ensures DiagnosticUpTo(ds[i], ds[j]) { DiagnosticNotBefore(ds[i], ds[j]); }
  }

  ghost predicate HasCycle(diagnostics: seq<Diagnostic>) { exists d :: d in diagnostics && d.CycleFound? }

  ghost predicate HasWiringFault(diagnostics: seq<Diagnostic>) { exists d :: d in diagnostics && !d.CycleFound? }

  /** The identifier depends on itself, directly or through others. */
  ghost predicate OnCycle(deps: set<(string, string)>, name: string) {
    exists b :: (name, b) in deps && Reaches(deps, b, name)
  }

  /**
   * One cyclic component: its members in ascending order, each depending on each, filed under the first of
   * them, with a cycle through that one.
   */
  ghost predicate DescribesCycle(deps: set<(string, string)>, d: Diagnostic) {
    && d.CycleFound? && PrintedCycle(deps, d.path) && d.path[0] == d.providerID
    && d.members != [] && d.members[0] == d.providerID
    && (forall i, j :: 0 <= i < j < |d.members| ==> StringOrder.Less(d.members[i], d.members[j]))
    && (forall name :: name in d.members <==> Mutual(deps, d.providerID, name))
  }

  ghost predicate InReport(d: Diagnostic, name: string) { d.CycleFound? && name in d.members }

  ghost predicate Reported(diagnostics: seq<Diagnostic>, name: string) {
    exists d :: d in diagnostics && InReport(d, name)
  }

  /** No two cycle diagnostics are filed under the same provider. */
  ghost predicate FiledOnce(diagnostics: seq<Diagnostic>) {
    forall i, j :: 0 <= i < j < |diagnostics| && diagnostics[i].CycleFound? && diagnostics[j].CycleFound? ==>
      diagnostics[i].providerID != diagnostics[j].providerID
  }

  /** Cycle diagnostics and cyclic components correspond one to one. */
  ghost predicate CyclesReported(diagnostics: seq<Diagnostic>, deps: set<(string, string)>) {
    && (forall d :: d in diagnostics && d.CycleFound? ==> DescribesCycle(deps, d))
    && (forall name :: OnCycle(deps, name) ==> Reported(diagnostics, name))
    && FiledOnce(diagnostics)
  }

  /** A provider on a cycle is named by exactly one cycle diagnostic. */
  lemma ReportedOnce(diagnostics: seq<Diagnostic>, deps: set<(string, string)>, name: string) returns (i: nat)
    requires CyclesReported(diagnostics, deps) && OnCycle(deps, name)
    ensures i < |diagnostics| && InReport(diagnostics[i], name)
    ensures forall j :: 0 <= j < |diagnostics| && InReport(diagnostics[j], name) ==> j == i
  {
    hide PrintedCycle, Reaches, OnCycle;
    assert Reported(diagnostics, name);
    i :| 0 <= i < |diagnostics| && InReport(diagnostics[i], name);
    forall j | 0 <= j < |diagnostics| && InReport(diagnostics[j], name) ensures j == i {
      SharedMember(deps, diagnostics[i], diagnostics[j], name);
    }
  }

  lemma SharedMember(deps: set<(string, string)>, d: Diagnostic, d': Diagnostic, name: string)
    requires DescribesCycle(deps, d) && DescribesCycle(deps, d') && name in d.members && name in d'.members
    ensures d.providerID == d'.providerID
  {
    hide PrintedCycle, Reaches;
    ReachesTransitive(deps, d.providerID, name, d'.providerID);
    ReachesTransitive(deps, d'.providerID, name, d.providerID);
    assert Mutual(deps, d.providerID, d'.providerID) && Mutual(deps, d'.providerID, d.providerID);
    assert d'.providerID in d.members && d.providerID in d'.members;
    var i :| 0 <= i < |d.members| && d.members[i] == d'.providerID;
    var j :| 0 <= j < |d'.members| && d'.members[j] == d.providerID;
    if i > 0 && j > 0 { StringOrder.LessAsymmetric(d.providerID, d'.providerID); }
  }

  /** The edges recorded for an input are, in some order, exactly what the input resolves to. */
  ghost predicate Resolved(providers: seq<Provider>, edges: seq<Edge>, c: nat, k: nat) {
    IsInput(providers, c, k)
    && exists es :: multiset(EdgesFor(edges, c, k)) == multiset(es)
                    && InputOutcome(providers, c, providers[c].dependencies[k], es, [])
  }

  ghost predicate AllResolved(providers: seq<Provider>, edges: seq<Edge>) {
    forall c: nat, k: nat :: IsInput(providers, c, k) ==> Resolved(providers, edges, c, k)
  }

  /** The input has, in some order, exactly the edges the wiring rules give it, and exactly their diagnostics. */
  ghost predicate Settled(providers: seq<Provider>, edges: seq<Edge>, diagnostics: seq<Diagnostic>, c: nat, k: nat) {
    IsInput(providers, c, k)
    && exists es :: multiset(EdgesFor(edges, c, k)) == multiset(es)
                    && InputOutcome(providers, c, providers[c].dependencies[k], es,
                                    DiagnosticsFor(diagnostics, providers[c].symbolID, k))
  }

  ghost predicate AllSettled(providers: seq<Provider>, edges: seq<Edge>, diagnostics: seq<Diagnostic>) {
    forall c: nat, k: nat :: IsInput(providers, c, k) ==> Settled(providers, edges, diagnostics, c, k)
  }

  /** No edge belongs to anything but a declared input. */
  ghost predicate OnlyInputs(providers: seq<Provider>, edges: seq<Edge>) {
    forall c: nat, k: nat :: !IsInput(providers, c, k) ==> EdgesFor(edges, c, k) == []
  }

  /** No wiring diagnostic is about anything but a declared input. */
  ghost predicate OnlyInputDiagnostics(providers: seq<Provider>, diagnostics: seq<Diagnostic>) {
    forall d :: d in diagnostics && !d.CycleFound? ==> AboutInput(providers, d, |providers|, 0)
  }

  // ----- Cycle diagnostics -----------------------------------------------------------------------

  /** The diagnostic lists exactly the component and is filed under its first member. */
  ghost predicate Describes(d: Diagnostic, component: seq<nat>, ids: seq<string>) {
    && d.CycleFound? && component != []
    && d.members == Names(component, ids) && d.providerID == Symbol(ids, component[0])
  }

  /** Describes one cyclic component. */
  method CycleDiagnostic(component: seq<nat>, adjacency: seq<seq<nat>>, ids: seq<string>) returns (d: Diagnostic)
    requires CleanGraph(adjacency, ids) && CycleWitness.CyclicComponent(EdgeSet(adjacency), component)
    requires InRange(component, |adjacency|) && SortedBy(component, SymbolBefore(ids))
    ensures Describes(d, component, ids) && DescribesCycle(NameEdges(EdgeSet(adjacency), ids), d)
  {
    hide IsComponent, PrintedCycle, EdgesWithin, SortedBy, SymbolBefore, DescribesCycle;
    CleanEdgesWithin(adjacency);
    ComponentFirst(EdgeSet(adjacency), component);
    assert component[0] in component;
    var path := CycleWitness.RepresentativeCycle(component, adjacency);
    CycleWitness.WitnessIsCycle(adjacency, component, path);
    CyclePrints(EdgeSet(adjacency), ids, component[0], path);
    var labels := seq(|path|, k requires 0 <= k < |path| => Symbol(ids, path[k]));
    assert labels == Names(path, ids);
    var members := seq(|component|, k requires 0 <= k < |component| => Symbol(ids, component[k]));
    assert members == Names(component, ids);
    d := CycleFound(Symbol(ids, component[0]), labels, members);
    DescriptionFits(EdgeSet(adjacency), ids, component, d);
  }

  lemma ComponentFirst(e: set<(nat, nat)>, component: seq<nat>)
    requires IsComponent(e, component)
    ensures component != [] && NoDuplicates(component)
  {
  }

  lemma DescriptionFits(e: set<(nat, nat)>, ids: seq<string>, component: seq<nat>, d: Diagnostic)
    requires NoDuplicates(ids) && EdgesWithin(e, |ids|) && IsComponent(e, component) && InRange(component, |ids|)
    requires SortedBy(component, SymbolBefore(ids)) && Describes(d, component, ids)
    requires PrintedCycle(NameEdges(e, ids), d.path) && d.path[0] == d.providerID
    ensures DescribesCycle(NameEdges(e, ids), d)
  {
    hide PrintedCycle, Reaches, EdgesWithin, IsComponent;
    ComponentFirst(e, component);
    MembersAscend(ids, component);
    forall name ensures name in d.members <==> Mutual(NameEdges(e, ids), d.providerID, name) {
      MembersAreMutual(e, ids, component, name);
    }
  }

  lemma MembersAscend(ids: seq<string>, component: seq<nat>)
    requires NoDuplicates(ids) && NoDuplicates(component) && InRange(component, |ids|)
    requires SortedBy(component, SymbolBefore(ids))
    ensures forall i, j :: 0 <= i < j < |component| ==>
              StringOrder.Less(Names(component, ids)[i], Names(component, ids)[j])
  {
    forall i, j | 0 <= i < j < |component|
      ensures StringOrder.Less(Names(component, ids)[i], Names(component, ids)[j])
    {
      assert component[i] in component && component[j] in component;
      assert !SymbolBefore(ids)(component[j], component[i]);
      StringOrder.LessTotal(ids[component[i]], ids[component[j]]);
    }
  }

  lemma MembersAreMutual(e: set<(nat, nat)>, ids: seq<string>, component: seq<nat>, name: string)
    requires NoDuplicates(ids) && EdgesWithin(e, |ids|) && IsComponent(e, component) && InRange(component, |ids|)
    ensures name in Names(component, ids) <==> Mutual(NameEdges(e, ids), Symbol(ids, component[0]), name)
  {
    var first := component[0];
    assert first in component;
    hide Reaches, EdgesWithin;
    if name in Names(component, ids) {
      var i :| 0 <= i < |component| && Symbol(ids, component[i]) == name;
      assert component[i] in component && Mutual(e, first, component[i]);
      MutualByName(e, ids, first, component[i]);
    }
    if Mutual(NameEdges(e, ids), Symbol(ids, first), name) {
      var v := ReachedIsNamed(e, ids, first, name);
      MutualByName(e, ids, first, v);
      var i :| 0 <= i < |component| && component[i] == v;
      assert Names(component, ids)[i] == name;
    }
  }

  /** The first i components account for the diagnostics, each cyclic one by one diagnostic. */
  ghost predicate ReportsUpTo(e: set<(nat, nat)>, ids: seq<string>, components: seq<seq<nat>>, i: nat,
                              diagnostics: seq<Diagnostic>) {
    && i <= |components|
    && (forall k :: 0 <= k < |diagnostics| ==> ComesFrom(ids, components, i, diagnostics[k]))
    && (forall k :: 0 <= k < |diagnostics| ==> DescribesCycle(NameEdges(e, ids), diagnostics[k]))
    && (forall j :: 0 <= j < i && CycleWitness.CyclicComponent(e, components[j]) ==>
          IsDescribed(ids, components[j], diagnostics))
    && FiledOnce(diagnostics)
  }

  ghost predicate ComesFrom(ids: seq<string>, components: seq<seq<nat>>, i: nat, d: Diagnostic) {
    exists j :: 0 <= j < i && j < |components| && Describes(d, components[j], ids)
  }

  ghost predicate IsDescribed(ids: seq<string>, component: seq<nat>, diagnostics: seq<Diagnostic>) {
    exists k :: 0 <= k < |diagnostics| && Describes(diagnostics[k], component, ids)
  }

  lemma ReportsSkip(e: set<(nat, nat)>, ids: seq<string>, components: seq<seq<nat>>, i: nat,
                    diagnostics: seq<Diagnostic>)
    requires ReportsUpTo(e, ids, components, i, diagnostics) && i < |components|
    requires !CycleWitness.CyclicComponent(e, components[i])
    ensures ReportsUpTo(e, ids, components, i + 1, diagnostics)
  {
    hide Describes, DescribesCycle, CycleWitness.CyclicComponent;
    forall k | 0 <= k < |diagnostics| ensures ComesFrom(ids, components, i + 1, diagnostics[k]) {
      assert ComesFrom(ids, components, i, diagnostics[k]);
    }
  }

  lemma ReportsAppend(e: set<(nat, nat)>, ids: seq<string>, components: seq<seq<nat>>, i: nat,
                      diagnostics: seq<Diagnostic>, covered: set<nat>, d: Diagnostic)
    requires ReportsUpTo(e, ids, components, i, diagnostics) && i < |components| && Partition(e, components, covered)
    requires NoDuplicates(ids) && forall v :: v in covered ==> v < |ids|
    requires Describes(d, components[i], ids) && DescribesCycle(NameEdges(e, ids), d)
    ensures ReportsUpTo(e, ids, components, i + 1, diagnostics + [d])
  {
    hide DescribesCycle, CycleWitness.CyclicComponent, IsComponent;
    var all := diagnostics + [d];
    forall k | 0 <= k < |all| ensures ComesFrom(ids, components, i + 1, all[k]) {
      if k < |diagnostics| { assert ComesFrom(ids, components, i, diagnostics[k]); }
    }
    forall j | 0 <= j <= i && CycleWitness.CyclicComponent(e, components[j])
      ensures IsDescribed(ids, components[j], all)
    {
      if j == i {
        assert Describes(all[|diagnostics|], components[i], ids);
      } else {
        var k :| 0 <= k < |diagnostics| && Describes(diagnostics[k], components[j], ids);
        assert Describes(all[k], components[j], ids);
      }
    }
    forall k | 0 <= k < |diagnostics| ensures diagnostics[k].providerID != d.providerID {
      assert ComesFrom(ids, components, i, diagnostics[k]);
      var j :| 0 <= j < i && Describes(diagnostics[k], components[j], ids);
      FirstsDiffer(e, ids, components, covered, j, i);
    }
  }

  lemma FirstsDiffer(e: set<(nat, nat)>, ids: seq<string>, components: seq<seq<nat>>, covered: set<nat>, j: nat, i: nat)
    requires Partition(e, components, covered) && j < i < |components| && components[i] != [] && components[j] != []
    requires NoDuplicates(ids) && forall v :: v in covered ==> v < |ids|
    ensures Symbol(ids, components[j][0]) != Symbol(ids, components[i][0])
  {
    hide IsComponent;
    var v, w := components[j][0], components[i][0];
    assert v in components[j] && w in components[i];
    assert InSome(components, v) && InSome(components, w);
    if Symbol(ids, v) == Symbol(ids, w) { SymbolIsInjective(ids, v, w); }
  }

  /** Every provider on a cycle belongs to a reported component. */
  lemma CycleIsReported(e: set<(nat, nat)>, ids: seq<string>, components: seq<seq<nat>>, diagnostics: seq<Diagnostic>,
                        covered: set<nat>, name: string)
    requires NoDuplicates(ids) && EdgesWithin(e, |ids|) && Partition(e, components, covered)
    requires forall v: nat :: v in covered <==> v < |ids|
    requires ReportsUpTo(e, ids, components, |components|, diagnostics) && OnCycle(NameEdges(e, ids), name)
    ensures Reported(diagnostics, name)
  {
    hide DescribesCycle, IsComponent, Reaches;
    var b :| (name, b) in NameEdges(e, ids) && Reaches(NameEdges(e, ids), b, name);
    var x :| x in e && (Symbol(ids, x.0), Symbol(ids, x.1)) == (name, b);
    assert x.0 < |ids| && x.1 < |ids|;
    ReachesByName(e, ids, x.1, x.0);
    assert InSome(components, x.0);
    var i :| 0 <= i < |components| && x.0 in components[i];
    CycleWitness.CycleNodeComponent(e, components[i], x.0, x.1);
    assert IsDescribed(ids, components[i], diagnostics);
    var k :| 0 <= k < |diagnostics| && Describes(diagnostics[k], components[i], ids);
    var m :| 0 <= m < |components[i]| && components[i][m] == x.0;
    assert Names(components[i], ids)[m] == name;
    assert diagnostics[k] in diagnostics && InReport(diagnostics[k], name);
  }

  method CycleDiagnostics(adjacency: seq<seq<nat>>, ids: seq<string>) returns (diagnostics: seq<Diagnostic>)
    requires CleanGraph(adjacency, ids)
    ensures forall i :: 0 <= i < |diagnostics| ==> diagnostics[i].CycleFound?
    ensures CyclesReported(diagnostics, NameEdges(EdgeSet(adjacency), ids))
  {
    hide Partition, SortedBy, MembersSorted, Reaches, DescribesCycle, EdgesWithin, IsComponent, ReportsUpTo;
    var components := StronglyConnected(adjacency, ids);
    ghost var e := EdgeSet(adjacency);
    diagnostics := [];
    NothingReported(e, ids, components);
    for i := 0 to |components|
      invariant ReportsUpTo(e, ids, components, i, diagnostics)
    {
      var component := components[i];
      ComponentAt(adjacency, ids, components, i);
      assert component[0] in component;
      if |component| > 1 || component[0] in adjacency[component[0]] {
        var d := CycleDiagnostic(component, adjacency, ids);
        ReportsAppend(e, ids, components, i, diagnostics, Nodes(|adjacency|), d);
        diagnostics := diagnostics + [d];
      } else {
        ReportsSkip(e, ids, components, i, diagnostics);
      }
    }
    AllReported(adjacency, ids, components, diagnostics);
  }

  lemma NothingReported(e: set<(nat, nat)>, ids: seq<string>, components: seq<seq<nat>>)
    ensures ReportsUpTo(e, ids, components, 0, [])
  {
  }

  lemma AllReported(adjacency: seq<seq<nat>>, ids: seq<string>, components: seq<seq<nat>>, diagnostics: seq<Diagnostic>)
    requires CleanGraph(adjacency, ids) && Partition(EdgeSet(adjacency), components, Nodes(|adjacency|))
    requires ReportsUpTo(EdgeSet(adjacency), ids, components, |components|, diagnostics)
    ensures forall i :: 0 <= i < |diagnostics| ==> diagnostics[i].CycleFound?
    ensures CyclesReported(diagnostics, NameEdges(EdgeSet(adjacency), ids))
  {
    var e := EdgeSet(adjacency);
    hide Partition, EdgeSet, OnCycle, Reported;
    CleanEdgesWithin(adjacency);
    assert forall v: nat :: v in Nodes(|adjacency|) <==> v < |ids|;
    forall name | OnCycle(NameEdges(e, ids), name) ensures Reported(diagnostics, name) {
      CycleIsReported(e, ids, components, diagnostics, Nodes(|adjacency|), name);
    }
  }

  lemma ComponentAt(adjacency: seq<seq<nat>>, ids: seq<string>, components: seq<seq<nat>>, i: nat)
    requires Partition(EdgeSet(adjacency), components, Nodes(|adjacency|)) && i < |components|
    requires MembersSorted(ids, components)
    ensures IsComponent(EdgeSet(adjacency), components[i]) && components[i] != []
    ensures InRange(components[i], |adjacency|) && SortedBy(components[i], SymbolBefore(ids))
    ensures components[i][0] < |adjacency|
    ensures (components[i][0], components[i][0]) in EdgeSet(adjacency)
            <==> components[i][0] in adjacency[components[i][0]]
  {
    hide SortedBy;
    assert components[i] in components;
    forall v | v in components[i] ensures v < |adjacency| { assert InSome(components, v); }
    assert components[i][0] in components[i];
  }

  // ----- What the build promises -----------------------------------------------------------------

  /**
   * The whole result for a validated catalog, with or without faults: every input has exactly its edges and its
   * diagnostics, nothing else has any, and every cyclic component of the recorded relation is reported once.
   */
  ghost predicate Built(providers: seq<Provider>, r: Result) {
    var ids := SymbolIDs(providers);
    var deps := DependsOn(r.edges);
    && r.providers == providers && SoundEdges(providers, r.edges) && InRange(r.order, |providers|)
    && AllSettled(providers, r.edges, r.diagnostics)
    && OnlyInputs(providers, r.edges) && OnlyInputDiagnostics(providers, r.diagnostics)
    && CyclesReported(r.diagnostics, deps) && InReportOrder(r.edges, r.diagnostics)
    && (HasCycle(r.diagnostics) <==> Cyclic(deps))
    && (r.diagnostics != [] ==> r.order == [])
    && (r.diagnostics == [] ==>
          && Names(r.order, ids) == LeastOrder.Emit(LeastOrder.Elements(ids), deps, {})
          && LeastOrder.Topological(Names(r.order, ids), LeastOrder.Elements(ids), deps))
  }

  lemma SettledAfterSort(providers: seq<Provider>, edges: seq<Edge>, faults: seq<Diagnostic>, cycles: seq<Diagnostic>,
                         sorted: seq<Edge>, all: seq<Diagnostic>)
    requires multiset(sorted) == multiset(edges) && multiset(all) == multiset(faults + cycles)
    requires forall i :: 0 <= i < |cycles| ==> cycles[i].CycleFound?
    requires forall c: nat, k: nat :: IsInput(providers, c, k) ==> Treated(providers, edges, faults, c, k)
    ensures AllSettled(providers, sorted, all)
  {
    hide InputOutcome, EdgesFor, DiagnosticsFor;
    forall c: nat, k: nat | IsInput(providers, c, k) ensures Settled(providers, sorted, all, c, k) {
      assert Treated(providers, edges, faults, c, k);
      EdgesForPermuted(sorted, edges, c, k);
      var id := providers[c].symbolID;
      OutcomeHasOneDiagnostic(providers, c, providers[c].dependencies[k], EdgesFor(edges, c, k),
                              DiagnosticsFor(faults, id, k));
      DiagnosticsForSorted(faults, cycles, all, id, k);
    }
  }

  lemma OutcomeHasOneDiagnostic(providers: seq<Provider>, c: nat, input: Dependency, es: seq<Edge>, ds: seq<Diagnostic>)
    requires c < |providers| && InputOutcome(providers, c, input, es, ds)
    ensures |ds| <= 1
  {
    OutcomeIsDecided(providers, c, input, es, ds, es, ds);
  }

  /** Sorting in cycle diagnostics changes nothing about an input with at most one diagnostic. */
  lemma DiagnosticsForSorted(faults: seq<Diagnostic>, cycles: seq<Diagnostic>, all: seq<Diagnostic>, id: string,
                             parameter: nat)
    requires multiset(all) == multiset(faults + cycles) && forall i :: 0 <= i < |cycles| ==> cycles[i].CycleFound?
    requires |DiagnosticsFor(faults, id, parameter)| <= 1
    ensures DiagnosticsFor(all, id, parameter) == DiagnosticsFor(faults, id, parameter)
  {
    var ds, ds' := DiagnosticsFor(faults, id, parameter), DiagnosticsFor(all, id, parameter);
    DiagnosticsForConcat(faults, cycles, id, parameter);
    DiagnosticsForNone(cycles, id, parameter);
    forall d ensures multiset(ds)[d] == multiset(ds')[d] {
      DiagnosticsForMultiset(faults + cycles, id, parameter, d);
      DiagnosticsForMultiset(all, id, parameter, d);
    }
    ShortListsAgree(ds, ds');
  }

  lemma ShortListsAgree(a: seq<Diagnostic>, b: seq<Diagnostic>)
    requires multiset(a) == multiset(b) && |a| <= 1
    ensures a == b
  {
    assert |multiset(a)| == |multiset(b)|;
    if a != [] { assert a == [a[0]] && b == [b[0]] && b[0] in multiset(a); }
  }

  lemma OnlyInputsAfterSort(providers: seq<Provider>, edges: seq<Edge>, sorted: seq<Edge>)
    requires multiset(sorted) == multiset(edges) && OnlyInputs(providers, edges)
    ensures OnlyInputs(providers, sorted)
  {
    hide EdgesFor;
    forall c: nat, k: nat | !IsInput(providers, c, k) ensures EdgesFor(sorted, c, k) == [] {
      EdgesForPermuted(sorted, edges, c, k);
      assert |multiset(EdgesFor(sorted, c, k))| == 0;
    }
  }

  lemma SortKeepsEdges(providers: seq<Provider>, edges: seq<Edge>, sorted: seq<Edge>)
    requires multiset(sorted) == multiset(edges) && SoundEdges(providers, edges)
    ensures SoundEdges(providers, sorted) && DependsOn(sorted) == DependsOn(edges)
    ensures forall v: nat, d: nat :: d in TargetsOf(sorted, v) <==> d in TargetsOf(edges, v)
  {
    SameElements(sorted, edges);
    forall i | 0 <= i < |sorted| ensures SoundEdge(providers, sorted[i]) {
      assert sorted[i] in edges;
    }
    forall p | p in DependsOn(sorted) ensures p in DependsOn(edges) {
      var i :| 0 <= i < |sorted| && (sorted[i].consumerID, sorted[i].dependencyID) == p;
      assert sorted[i] in edges;
    }
    forall p | p in DependsOn(edges) ensures p in DependsOn(sorted) {
      var i :| 0 <= i < |edges| && (edges[i].consumerID, edges[i].dependencyID) == p;
      assert edges[i] in sorted;
    }
    forall v: nat, d: nat ensures d in TargetsOf(sorted, v) <==> d in TargetsOf(edges, v) {
      TargetsAreDependencies(sorted, v, d);
      TargetsAreDependencies(edges, v, d);
      if d in TargetsOf(sorted, v) {
        var i :| 0 <= i < |sorted| && sorted[i].consumer == v && sorted[i].dependency == d;
        assert sorted[i] in edges;
      }
      if d in TargetsOf(edges, v) {
        var i :| 0 <= i < |edges| && edges[i].consumer == v && edges[i].dependency == d;
        assert edges[i] in sorted;
      }
    }
  }

  /** An input has no diagnostic exactly when it is not rejected. */
  lemma SettledUnlessRejected(providers: seq<Provider>, edges: seq<Edge>, diagnostics: seq<Diagnostic>, c: nat, k: nat)
    requires Settled(providers, edges, diagnostics, c, k)
    ensures Rejected(providers, c, k) <==> DiagnosticsFor(diagnostics, providers[c].symbolID, k) != []
  {
    hide EdgesFor, DiagnosticsFor, InputOutcome;
    var input, ds := providers[c].dependencies[k], DiagnosticsFor(diagnostics, providers[c].symbolID, k);
    var es :| multiset(EdgesFor(edges, c, k)) == multiset(es) && InputOutcome(providers, c, input, es, ds);
    OutcomeIsDecided(providers, c, input, es, ds, es, ds);
    if ds != [] { assert ds == [ds[0]]; }
    if Rejected(providers, c, k) {
      var d :| InputOutcome(providers, c, input, [], [d]);
      OutcomeIsDecided(providers, c, input, es, ds, [], [d]);
    }
  }

  /** A build has a wiring fault exactly when some input is rejected; without one every input is resolved. */
  lemma FaultIffRejected(providers: seq<Provider>, r: Result)
    requires Built(providers, r)
    ensures HasWiringFault(r.diagnostics) <==> SomeRejected(providers)
    ensures !HasWiringFault(r.diagnostics) ==> AllResolved(providers, r.edges)
  {
    hide EdgesFor, DiagnosticsFor, InputOutcome, CyclesReported, OnlyInputs, SoundEdges, Cyclic, HasCycle,
         LeastOrder.Topological, Rejected, InReportOrder;
    if HasWiringFault(r.diagnostics) {
      var d :| d in r.diagnostics && !d.CycleFound?;
      assert AboutInput(providers, d, |providers|, 0);
      var c: nat, k: nat :| IsInput(providers, c, k) && IsAbout(d, providers[c].symbolID, k);
      InDiagnosticsFor(r.diagnostics, providers[c].symbolID, k, d);
      assert Settled(providers, r.edges, r.diagnostics, c, k);
      SettledUnlessRejected(providers, r.edges, r.diagnostics, c, k);
      assert Rejected(providers, c, k);
    } else {
      forall c: nat, k: nat | IsInput(providers, c, k)
        ensures Resolved(providers, r.edges, c, k) && !Rejected(providers, c, k)
      {
        assert Settled(providers, r.edges, r.diagnostics, c, k);
        SettledUnlessRejected(providers, r.edges, r.diagnostics, c, k);
        NoFaultNoDiagnosticsFor(r.diagnostics, providers[c].symbolID, k);
      }
      RejectedNeedsInput(providers);
    }
  }

  lemma RejectedNeedsInput(providers: seq<Provider>)
    ensures forall c: nat, k: nat :: Rejected(providers, c, k) ==> IsInput(providers, c, k)
  {
    hide InputOutcome;
  }

  lemma InDiagnosticsFor(diagnostics: seq<Diagnostic>, id: string, parameter: nat, d: Diagnostic)
    ensures d in DiagnosticsFor(diagnostics, id, parameter) <==> d in diagnostics && IsAbout(d, id, parameter)
  {
    DiagnosticsForMultiset(diagnostics, id, parameter, d);
    var ds := DiagnosticsFor(diagnostics, id, parameter);
    assert d in ds <==> d in multiset(ds);
    assert d in diagnostics <==> d in multiset(diagnostics);
  }

  lemma NoFaultNoDiagnosticsFor(diagnostics: seq<Diagnostic>, id: string, parameter: nat)
    requires !HasWiringFault(diagnostics)
    ensures DiagnosticsFor(diagnostics, id, parameter) == []
  {
    forall i | 0 <= i < |diagnostics|
      ensures !IsAbout(diagnostics[i], id, parameter)
    {
      assert diagnostics[i] in diagnostics;
    }
    DiagnosticsForNone(diagnostics, id, parameter);
  }

  /**
   * Wires every input, reports each cyclic component and, when nothing was reported, orders the providers for
   * construction. For a catalog whose own validation failed there is no graph at all.
   */
  method Build(providers: seq<Provider>, catalogHasDiagnostics: bool) returns (result: Result)
    requires !catalogHasDiagnostics ==> CatalogReady(providers)
    ensures catalogHasDiagnostics ==> result == Result([], [], [], [])
    ensures !catalogHasDiagnostics ==> Built(providers, result)
  {
    if catalogHasDiagnostics { return Result([], [], [], []); }
    hide InputOutcome, Connected, Adjacent, SoundEdges, CyclesReported, HasCycle, HasWiringFault, Built, CatalogReady,
         CleanGraph;
    ghost var ids := SymbolIDs(providers);
    CatalogHasUniqueIDs(providers);
    var index := TypeIndex.BuildTypeIndex(providers);
    var builder := new GraphBuilder(providers, index);
    builder.ConnectDependencies();
    var edges := StableSort(builder.edges, EdgeBefore());
    SortKeepsEdges(providers, builder.edges, edges);
    var adjacency := CleanAdjacency(builder.edges, builder.adjacency, providers);
    var cycles := CycleDiagnostics(adjacency, SymbolIDs(providers));
    var diagnostics := StableSort(builder.diagnostics + cycles, DiagnosticBefore());
    var order: seq<nat> := [];
    if |diagnostics| == 0 {
      var comparisons;
      order, comparisons := Order(adjacency, SymbolIDs(providers));
    }
    result := Result(providers, edges, order, diagnostics);
    BuiltFromParts(providers, builder.edges, builder.diagnostics, adjacency, cycles, result);
  }

  lemma CatalogHasUniqueIDs(providers: seq<Provider>)
    requires CatalogReady(providers)
    ensures NoDuplicates(SymbolIDs(providers))
  {
  }

  lemma BuiltFromParts(providers: seq<Provider>, edges: seq<Edge>, faults: seq<Diagnostic>,
                       adjacency: seq<seq<nat>>, cycles: seq<Diagnostic>, r: Result)
    requires CatalogReady(providers) && Connected(providers, edges, faults, |providers|, 0)
    requires SoundEdges(providers, edges)
    requires CleanGraph(adjacency, SymbolIDs(providers))
    requires forall v :: 0 <= v < |adjacency| ==> Mirrors(edges, adjacency[v], v)
    requires forall i :: 0 <= i < |cycles| ==> cycles[i].CycleFound?
    requires CyclesReported(cycles, NameEdges(EdgeSet(adjacency), SymbolIDs(providers)))
    requires r.providers == providers && InRange(r.order, |providers|)
    requires r.edges == StableSort(edges, EdgeBefore())
    requires r.diagnostics == StableSort(faults + cycles, DiagnosticBefore())
    requires r.diagnostics != [] ==> r.order == []
    requires r.diagnostics == [] ==>
               var ids := SymbolIDs(providers);
               Names(r.order, ids) == LeastOrder.Emit(LeastOrder.Elements(ids), NameEdges(EdgeSet(adjacency), ids), {})
    ensures Built(providers, r)
  {
    var ids := SymbolIDs(providers);
    hide Treated, AboutInput, Settled, Cyclic, DescribesCycle, OnCycle, SoundEdge, EdgesFor, Adjacent, StableSort,
         EdgeSet, TargetsOf, Reported, FiledOnce, InReportOrder;
    SortedIsInReportOrder(edges, faults + cycles);
    SortKeepsEdges(providers, edges, r.edges);
    AdjacencyIsDependsOn(providers, edges, adjacency);
    var deps := DependsOn(r.edges);
    AllTreated(providers, edges, faults);
    SettledAfterSort(providers, edges, faults, cycles, r.edges, r.diagnostics);
    FaultsAndCycles(providers, faults, cycles, r.diagnostics);
    ReportsAfterSort(faults, cycles, r.diagnostics, deps);
    CycleReportDecides(r.diagnostics, deps);
    OnlyInputsAfterSort(providers, edges, r.edges);
    DependenciesAreNodes(providers, r.edges);
    LeastOrder.CompleteIffAcyclic(LeastOrder.Elements(ids), deps);
  }

  lemma AllTreated(providers: seq<Provider>, edges: seq<Edge>, faults: seq<Diagnostic>)
    requires Connected(providers, edges, faults, |providers|, 0)
    ensures forall c: nat, k: nat :: IsInput(providers, c, k) ==> Treated(providers, edges, faults, c, k)
    ensures OnlyInputs(providers, edges)
    ensures forall d :: d in faults ==> AboutInput(providers, d, |providers|, 0)
  {
    hide Treated, EdgesFor, AboutInput;
    forall c: nat, k: nat | IsInput(providers, c, k) ensures Before(c, k, |providers|, 0) {}
  }

  lemma ReportsAfterSort(faults: seq<Diagnostic>, cycles: seq<Diagnostic>, all: seq<Diagnostic>,
                         deps: set<(string, string)>)
    requires multiset(all) == multiset(faults + cycles) && CyclesReported(cycles, deps)
    requires forall i :: 0 <= i < |faults| ==> !faults[i].CycleFound?
    requires forall i :: 0 <= i < |cycles| ==> cycles[i].CycleFound?
    ensures CyclesReported(all, deps)
  {
    hide DescribesCycle, OnCycle;
    SameElements(all, faults + cycles);
    forall d | d in all && d.CycleFound? ensures d in cycles { assert d in faults || d in cycles; }
    forall name | OnCycle(deps, name) ensures Reported(all, name) {
      assert Reported(cycles, name);
      var d :| d in cycles && InReport(d, name);
      assert d in faults + cycles;
    }
    forall i, j | 0 <= i < j < |all| && all[i].CycleFound? && all[j].CycleFound?
      ensures all[i].providerID != all[j].providerID
    {
      assert all[i] in all && all[j] in all;
      var k :| 0 <= k < |cycles| && cycles[k] == all[i];
      var m :| 0 <= m < |cycles| && cycles[m] == all[j];
      if k == m {
        TwiceCounted(all, i, j);
        CycleListedOnce(faults, cycles, all[i]);
      }
    }
  }

  lemma CycleListedOnce(faults: seq<Diagnostic>, cycles: seq<Diagnostic>, d: Diagnostic)
    requires FiledOnce(cycles) && d.CycleFound?
    requires forall i :: 0 <= i < |faults| ==> !faults[i].CycleFound?
    requires forall i :: 0 <= i < |cycles| ==> cycles[i].CycleFound?
    ensures multiset(faults + cycles)[d] <= 1
  {
    OnceCounted(cycles, d);
    assert d !in faults;
    assert multiset(faults)[d] == 0;
    assert multiset(faults + cycles) == multiset(faults) + multiset(cycles);
  }

  /** A cycle diagnostic exists exactly when the relation has a cycle. */
  lemma CycleReportDecides(diagnostics: seq<Diagnostic>, deps: set<(string, string)>)
    requires CyclesReported(diagnostics, deps)
    ensures HasCycle(diagnostics) <==> Cyclic(deps)
  {
    hide Reaches;
    if Cyclic(deps) {
      var a, b :| (a, b) in deps && Reaches(deps, b, a);
      assert OnCycle(deps, a);
      assert Reported(diagnostics, a);
    }
    if d :| d in diagnostics && d.CycleFound? {
      assert DescribesCycle(deps, d);
      PathNodeBetween(deps, d.path, 1);
      assert (d.path[0], d.path[1]) in deps;
    }
  }

  lemma DependenciesAreNodes(providers: seq<Provider>, edges: seq<Edge>)
    requires SoundEdges(providers, edges)
    ensures forall c, d :: (c, d) in DependsOn(edges) ==>
              c in LeastOrder.Elements(SymbolIDs(providers)) && d in LeastOrder.Elements(SymbolIDs(providers))
  {
    var ids := SymbolIDs(providers);
    forall c, d | (c, d) in DependsOn(edges) ensures c in LeastOrder.Elements(ids) && d in LeastOrder.Elements(ids) {
      var i :| 0 <= i < |edges| && (edges[i].consumerID, edges[i].dependencyID) == (c, d);
      assert SoundEdge(providers, edges[i]);
      assert ids[edges[i].consumer] == c && ids[edges[i].dependency] == d;
    }
  }

  lemma FaultsAndCycles(providers: seq<Provider>, faults: seq<Diagnostic>, cycles: seq<Diagnostic>,
                        all: seq<Diagnostic>)
    requires multiset(all) == multiset(faults + cycles)
    requires forall d :: d in faults ==> AboutInput(providers, d, |providers|, 0)
    requires forall i :: 0 <= i < |cycles| ==> cycles[i].CycleFound?
    ensures OnlyInputDiagnostics(providers, all)
    ensures forall i :: 0 <= i < |faults| ==> !faults[i].CycleFound?
  {
    SameElements(all, faults + cycles);
    forall d | d in all && !d.CycleFound? ensures AboutInput(providers, d, |providers|, 0) {
      assert d in faults || d in cycles;
    }
    forall i | 0 <= i < |faults| ensures !faults[i].CycleFound? {
      assert faults[i] in faults;
      var c: nat, k: nat :| IsInput(providers, c, k) && IsAbout(faults[i], providers[c].symbolID, k);
    }
  }
}
