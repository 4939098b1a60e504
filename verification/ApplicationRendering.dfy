/**
 * From a diagnostic-free graph to the constructor body (compiler/generate/generate.go,
 * compiler/application/application.go).
 */
module ApplicationRendering {
  import opened Catalog
  import opened Digraph
  import opened Wiring
  import opened InputRendering
  import opened PolicyOrder
  import opened ConstructorRendering
  import opened Declarations
  import DependencyGraph
  import GraphBuild
  import LeastOrder
  import ConstructionOrder
  import Identifiers
  import Naming
  import Sorting

  // ----- Variables -------------------------------------------------------------------------------

  method TargetProviderVariables(providers: seq<Provider>, names: seq<string>) returns (local: map<string, string>)
    requires |names| == |providers| && NoDuplicates(SymbolIDs(providers))
    ensures local.Keys == LeastOrder.Elements(SymbolIDs(providers))
    ensures forall i :: 0 <= i < |providers| ==> local[providers[i].symbolID] == names[i]
  {
    local := map[];
    var ids := SymbolIDs(providers);
    for i := 0 to |providers|
      invariant local.Keys == LeastOrder.Elements(ids[..i])
      invariant forall j :: 0 <= j < i ==> ids[j] in local && local[ids[j]] == names[j]
    {
      assert ids[..i+1] == ids[..i] + [ids[i]];
      assert forall j :: 0 <= j < i ==> ids[j] != ids[i];
      local := local[providers[i].symbolID := names[i]];
    }
    assert ids[..|ids|] == ids;
  }

  function ServiceIDs(services: seq<Service>): (ids: seq<string>)
    ensures |ids| == |services|
  {
    seq(|services|, i requires 0 <= i < |services| => services[i].providerID)
  }

  function Lookup(m: map<string, string>, id: string): string { if id in m then m[id] else "" }

  /** Decorated providers are exposed under new variables, all others under their own. */
  ghost predicate Exposed(local: map<string, string>, services: seq<Service>, exposed: map<string, string>, n: nat) {
    && n <= |services| && exposed.Keys == local.Keys
    && (forall id :: id in local && id !in ServiceIDs(services)[..n] ==> exposed[id] == local[id])
    && (forall i :: 0 <= i < n ==> ExposesNew(local, services, exposed, i))
    && (forall i, j :: 0 <= i < j < n ==>
          Lookup(exposed, services[i].providerID) != Lookup(exposed, services[j].providerID))
  }

  ghost predicate ExposesNew(local: map<string, string>, services: seq<Service>, exposed: map<string, string>, i: nat)
    requires i < |services|
  {
    var id := services[i].providerID;
    && id in local && id in exposed && exposed[id] !in local.Values
    && exists k: nat :: exposed[id] == Naming.Candidate(local[id] + "Policy", k)
  }

  method PolicyExposureVariables(local: map<string, string>, services: seq<Service>)
      returns (exposed: map<string, string>)
    requires NoDuplicates(ServiceIDs(services)) && forall i :: 0 <= i < |services| ==> services[i].providerID in local
    ensures Exposed(local, services, exposed, |services|)
  {
    hide Naming.IsFresh;
    exposed := local;
    var used := set id | id in local :: local[id];
    for i := 0 to |services|
      invariant Exposed(local, services, exposed, i)
      invariant local.Values <= used && forall j :: 0 <= j < i ==> Lookup(exposed, services[j].providerID) in used
    {
      var id := services[i].providerID;
      var base := local[id] + "Policy";
      var candidate := Naming.FreshName(base, used);
      Naming.FreshIsUnused(base, used, candidate);
      OneMoreExposed(local, services, exposed, i, used, candidate);
      used := used + {candidate};
      exposed := exposed[id := candidate];
    }
  }

  lemma OneMoreExposed(local: map<string, string>, services: seq<Service>, exposed: map<string, string>, i: nat,
                       used: set<string>, candidate: string)
    requires Exposed(local, services, exposed, i) && i < |services| && NoDuplicates(ServiceIDs(services))
    requires services[i].providerID in local
    requires local.Values <= used && forall j :: 0 <= j < i ==> Lookup(exposed, services[j].providerID) in used
    requires candidate !in used
    requires exists k: nat :: candidate == Naming.Candidate(local[services[i].providerID] + "Policy", k)
    ensures Exposed(local, services, exposed[services[i].providerID := candidate], i + 1)
    ensures forall j :: 0 <= j < i ==>
              Lookup(exposed[services[i].providerID := candidate], services[j].providerID)
              == Lookup(exposed, services[j].providerID)
  {
    hide Naming.Candidate, ExposesNew, ServiceIDs;
    var id := services[i].providerID;
    NextService(services, i);
    var more := exposed[id := candidate];
    forall j | 0 <= j < i + 1 ensures ExposesNew(local, services, more, j) {
      ExposesStill(local, services, exposed, i, j, candidate);
    }
    forall x | x in local && x !in ServiceIDs(services)[..i+1] ensures more[x] == local[x] {
      assert x !in ServiceIDs(services)[..i];
    }
  }

  lemma NextService(services: seq<Service>, i: nat)
    requires i < |services| && NoDuplicates(ServiceIDs(services))
    ensures forall id :: id in ServiceIDs(services)[..i+1]
                         <==> id in ServiceIDs(services)[..i] || id == services[i].providerID
    ensures forall j :: 0 <= j < i ==> services[j].providerID != services[i].providerID
  {
    var ids := ServiceIDs(services);
    assert ids[..i+1] == ids[..i] + [ids[i]];
    forall j | 0 <= j < i ensures services[j].providerID != services[i].providerID { assert ids[j] != ids[i]; }
  }

  lemma ExposesStill(local: map<string, string>, services: seq<Service>, exposed: map<string, string>, i: nat, j: nat,
                     candidate: string)
    requires j <= i < |services| && services[i].providerID in local && candidate !in local.Values
    requires exists k: nat :: candidate == Naming.Candidate(local[services[i].providerID] + "Policy", k)
    requires j < i ==> ExposesNew(local, services, exposed, j) && services[j].providerID != services[i].providerID
    ensures ExposesNew(local, services, exposed[services[i].providerID := candidate], j)
  {
    hide Naming.Candidate;
  }

  function IndexServices(services: seq<Service>): (r: map<string, Service>)
    ensures forall id :: id in r <==> id in ServiceIDs(services)
    ensures forall id :: id in r ==> r[id] in services && r[id].providerID == id
  {
    if services == [] then map[]
    else
      assert ServiceIDs(services) == ServiceIDs(services[..|services|-1]) + [services[|services|-1].providerID];
      assert services == services[..|services|-1] + [services[|services|-1]];
      IndexServices(services[..|services|-1])[services[|services|-1].providerID := services[|services|-1]]
  }

  // ----- Putting it together ---------------------------------------------------------------------

  datatype Rendering =
    | Source(body: seq<Statement>)
    | PolicyDiagnostic(symbolID: string)
    | BadInput(inputs: Inputs)
    | BadProvider(fault: Option<Fault>)

  /** One service a singleton provider; its manager, if any, is a provider too. */
  ghost predicate ServicesFit(catalog: seq<Provider>, services: seq<Service>) {
    && NoDuplicates(ServiceIDs(services))
    && (forall i :: 0 <= i < |services| ==>
          && services[i].providerID in SymbolIDs(catalog)
          && (services[i].managerID == "" || services[i].managerID in SymbolIDs(catalog)))
    && (forall p :: p in catalog && p.symbolID in ServiceIDs(services) ==> p.scope == Singleton)
  }

  /** Compiled metadata for every provider; a topic's provider depends on its listeners' providers. */
  ghost predicate MetadataFits(catalog: seq<Provider>, deps: set<(string, string)>, meta: Metadata) {
    forall p :: p in catalog ==> MetadataFor(p, deps, meta)
  }

  ghost predicate MetadataFor(p: Provider, deps: set<(string, string)>, meta: Metadata) {
    && (p.scope != Singleton || (p.source != Logging && p.source != Event) ==> p.symbolID in meta.adapters)
    && (p.source == Configuration ==> p.symbolID in meta.configurations)
    && (p.source == Event && p.scope == Singleton ==> p.symbolID in meta.topics)
    && (p.symbolID in meta.topics ==> forall l :: l in meta.topics[p.symbolID] ==> (p.symbolID, l) in deps)
  }

  /** The catalog's own records, dependencies and managers first. */
  ghost predicate Listing(catalog: seq<Provider>, items: seq<Provider>, deps: set<(string, string)>) {
    && (forall p :: p in items <==> p in catalog) && NoDuplicates(SymbolIDs(items))
    && LeastOrder.DependenciesFirst(SymbolIDs(items), deps, {})
  }

  lemma SameRecords(catalog: seq<Provider>, items: seq<Provider>)
    requires NoDuplicates(SymbolIDs(catalog)) && (forall p :: p in items ==> p in catalog)
    requires LeastOrder.Elements(SymbolIDs(items)) == LeastOrder.Elements(SymbolIDs(catalog))
    ensures forall p :: p in items <==> p in catalog
  {
    forall p | p in catalog ensures p in items {
      var v :| 0 <= v < |catalog| && catalog[v] == p;
      assert SymbolIDs(catalog)[v] in LeastOrder.Elements(SymbolIDs(items));
      var i :| 0 <= i < |items| && SymbolIDs(items)[i] == p.symbolID;
      assert items[i] in catalog;
      var w :| 0 <= w < |catalog| && catalog[w] == items[i];
      assert SymbolIDs(catalog)[w] == SymbolIDs(catalog)[v];
    }
  }

  /** A dependency of the i-th listed provider is listed before it. */
  lemma ListedBefore(catalog: seq<Provider>, items: seq<Provider>, deps: set<(string, string)>, i: nat, d: string)
      returns (j: nat)
    requires Listing(catalog, items, deps) && i < |items| && (items[i].symbolID, d) in deps
    ensures j < i && items[j].symbolID == d
  {
    var order := SymbolIDs(items);
    assert LeastOrder.DependsOnlyOn(deps, order[i], {} + LeastOrder.Elements(order[..i]));
    assert d in LeastOrder.Elements(order[..i]);
    j :| 0 <= j < i && order[..i][j] == d;
  }

  /** An argument's variables are those of the providers its edges lead to. */
  lemma ArgumentNames(edges: seq<Edge>, providers: seq<Provider>, variables: map<string, string>, item: Provider,
                      input: Dependency, name: string)
    requires Writable(edges, variables, item, input)
    requires name in InputRendering.Names(Argument(edges, providers, variables, item, input))
    ensures exists e :: e in edges && e.consumerID == item.symbolID && e.dependencyID in variables
                        && variables[e.dependencyID] == name
  {
    var selected := SelectedEdges(edges, item, input.index);
    SelectedAreEdges(edges, item, input.index);
    var kind := if selected != [] && selected[0].kind == KindSingle then KindSingle else input.kind;
    NamesComeFromVariables(kind, Variables(selected, variables), Providers(selected, providers), name);
    hide *;
    var used := Variables(selected, variables);
    var n :| 0 <= n < |used| && used[n] == name;
    assert selected[n] in selected;
  }

  lemma SelectedAreEdges(edges: seq<Edge>, item: Provider, parameter: nat)
    ensures forall e :: e in SelectedEdges(edges, item, parameter) ==> e in edges && e.consumerID == item.symbolID
  {
    Sorting.SameElements(SelectedEdges(edges, item, parameter), EdgesAt(edges, item.symbolID, parameter));
  }

  lemma NamesComeFromVariables(kind: DependencyKind, variables: seq<string>, selected: seq<Option<Provider>>,
                               name: string)
    requires |variables| == |selected| && (kind == KindLazy || kind == KindProvider ==> variables != [])
    requires name in InputRendering.Names(DependencyExpression(kind, variables, selected))
    ensures name in variables
  {
  }

  /** Every argument list is the one rendered from the graph, over the exposed variables. */
  ghost predicate ArgsRendered(edges: seq<Edge>, items: seq<Provider>, c: Context) {
    forall p :: p in items ==> p.symbolID in c.args && ArgsOf(edges, items, c.exposed, p, c.args[p.symbolID])
  }

  ghost predicate Covers(items: seq<Provider>, c: Context) {
    forall p :: p in items ==> p.symbolID in c.local && p.symbolID in c.exposed && c.local[p.symbolID] != ""
  }

  ghost predicate EdgesWithin(edges: seq<Edge>, deps: set<(string, string)>) {
    forall e :: e in edges ==> (e.consumerID, e.dependencyID) in deps
  }

  ghost predicate ManagersWithin(c: Context, deps: set<(string, string)>) {
    forall id :: id in c.services && c.services[id].managerID != "" ==> (id, c.services[id].managerID) in deps
  }

  lemma VisibleAt(c: Context, items: seq<Provider>, i: nat, j: nat)
    requires j < i <= |items|
    ensures LocalOf(c, items[j].symbolID) in Visible(c, items[..i])
    ensures ExposedOf(c, items[j].symbolID) in Visible(c, items[..i])
  {
    assert items[..i][j] == items[j] && items[j] in items[..i];
    assert LocalOf(c, items[j].symbolID) in VariablesFor(c, items[j].symbolID);
    assert ExposedOf(c, items[j].symbolID) in VariablesFor(c, items[j].symbolID);
  }

  lemma ArgumentsAreVisible(catalog: seq<Provider>, items: seq<Provider>, edges: seq<Edge>,
                            deps: set<(string, string)>, c: Context, i: nat)
    requires Listing(catalog, items, deps) && EdgesWithin(edges, deps) && ArgsRendered(edges, items, c) && i < |items|
    ensures ArgNames(ArgsFor(c, items[i].symbolID)) <= Visible(c, items[..i])
  {
    hide Listing, Visible, Writable, Argument;
    var item, args := items[i], c.args[items[i].symbolID];
    assert item in items && ArgsOf(edges, items, c.exposed, item, args);
    forall n | n in ArgNames(args) ensures n in Visible(c, items[..i]) {
      var e :| e in args && n in InputRendering.Names(e);
      var k :| 0 <= k < |args| && args[k] == e;
      ArgumentNames(edges, items, c.exposed, item, item.dependencies[k], n);
      var edge :| edge in edges && edge.consumerID == item.symbolID && edge.dependencyID in c.exposed
                  && c.exposed[edge.dependencyID] == n;
      var j := ListedBefore(catalog, items, deps, i, edge.dependencyID);
      VisibleAt(c, items, i, j);
    }
  }

  lemma NeedsAreVisible(catalog: seq<Provider>, items: seq<Provider>, edges: seq<Edge>, deps: set<(string, string)>,
                        c: Context, i: nat)
    requires Listing(catalog, items, deps) && EdgesWithin(edges, deps) && ManagersWithin(c, deps)
    requires ArgsRendered(edges, items, c)
    requires i < |items| && MetadataFor(items[i], deps, c.meta)
    ensures Needs(c, items[i]) <= Visible(c, items[..i])
  {
    hide Listing, Visible, ArgNames, ArgsRendered, ReceiversOf;
    var id := items[i].symbolID;
    ArgumentsAreVisible(catalog, items, edges, deps, c, i);
    if id in c.services && c.services[id].managerID != "" {
      var j := ListedBefore(catalog, items, deps, i, c.services[id].managerID);
      VisibleAt(c, items, i, j);
    }
    forall n | n in ListenerNames(c, id) ensures n in Visible(c, items[..i]) {
      var l := ListenerNamed(c, c.meta.topics[id], n);
      var j := ListedBefore(catalog, items, deps, i, l);
      VisibleAt(c, items, i, j);
    }
  }

  lemma ListenerNamed(c: Context, listeners: seq<string>, n: string) returns (l: string)
    requires n in ReceiversOf(c, listeners)
    ensures l in listeners && LocalOf(c, l) == n
  {
    var names := ReceiversOf(c, listeners);
    var x :| 0 <= x < |names| && names[x] == n;
    l := listeners[x];
  }

  lemma {:induction false} NoUnknownListener(c: Context, id: string, listeners: seq<string>)
    requires forall l :: l in listeners ==> LocalOf(c, l) != ""
    ensures FirstUnknown(c, id, listeners) == None
  {
    if listeners != [] {
      assert listeners[0] in listeners && forall l :: l in listeners[1..] ==> l in listeners;
      NoUnknownListener(c, id, listeners[1..]);
    }
  }

  lemma NoFault(catalog: seq<Provider>, items: seq<Provider>, deps: set<(string, string)>, c: Context, i: nat)
    requires Listing(catalog, items, deps) && Covers(items, c) && i < |items| && MetadataFor(items[i], deps, c.meta)
    ensures FaultOf(c, items[i]) == None
  {
    hide Listing;
    var id := items[i].symbolID;
    if id in c.meta.topics {
      forall l | l in c.meta.topics[id] ensures LocalOf(c, l) != "" {
        var j := ListedBefore(catalog, items, deps, i, l);
        assert items[j] in items;
      }
      NoUnknownListener(c, id, c.meta.topics[id]);
    }
  }

  /** The body renders without fault and is well scoped. */
  lemma BodyRenders(catalog: seq<Provider>, items: seq<Provider>, edges: seq<Edge>, deps: set<(string, string)>,
                    c: Context, authorization: bool)
    requires Listing(catalog, items, deps) && EdgesWithin(edges, deps) && ManagersWithin(c, deps)
    requires ArgsRendered(edges, items, c) && Covers(items, c) && MetadataFits(catalog, deps, c.meta)
    requires forall p :: p in items ==> Exposes(c, p)
    requires !authorization ==> forall id :: id in c.services ==> id !in c.meta.authorized
    ensures forall i :: 0 <= i < |items| ==> FaultOf(c, items[i]) == None
    ensures WellScoped(Body(c, items), Parameters(authorization))
  {
    hide ArgsRendered, EdgesWithin, ManagersWithin, Covers, FaultOf, Body, WellScoped, Needs, Visible, Exposes,
         LeastOrder.DependenciesFirst, MetadataFor;
    forall i | 0 <= i < |items| ensures FaultOf(c, items[i]) == None && Needs(c, items[i]) <= Visible(c, items[..i]) {
      assert items[i] in items;
      NoFault(catalog, items, deps, c, i);
      NeedsAreVisible(catalog, items, edges, deps, c, i);
    }
    forall i | 0 <= i < |items|
      ensures Provides(c, items[i], Parameters(authorization)) && Exposes(c, items[i])
    {
      assert items[i] in items;
    }
    BodyScoped(c, items, Parameters(authorization));
  }

  // ----- From graph to body ----------------------------------------------------------------------

  ghost function AllDeps(g: GraphBuild.Result, services: seq<Service>): set<(string, string)> {
    DependencyGraph.DependsOn(g.edges) + ManagerDeps(services)
  }

  ghost predicate DiagnosticFree(catalog: seq<Provider>, g: GraphBuild.Result) {
    CatalogReady(catalog) && "" !in SymbolIDs(catalog) && GraphBuild.Built(catalog, g) && g.diagnostics == []
  }

  lemma ConstructedIsListing(catalog: seq<Provider>, g: GraphBuild.Result)
    requires DiagnosticFree(catalog, g)
    ensures Listing(catalog, Constructed(g), DependencyGraph.DependsOn(g.edges))
    ensures LeastOrder.Elements(SymbolIDs(Constructed(g))) == LeastOrder.Elements(SymbolIDs(catalog))
  {
    hide GraphBuild.AllSettled, GraphBuild.OnlyInputs, GraphBuild.OnlyInputDiagnostics, GraphBuild.CyclesReported,
         Cyclic, DependencyGraph.SoundEdges, LeastOrder.Emit, LeastOrder.DependenciesFirst, ConstructionOrder.Names;
    ConstructedNames(catalog, g);
    var items := Constructed(g);
    forall p | p in items ensures p in catalog {
      var i :| 0 <= i < |items| && items[i] == p;
      assert g.order[i] in g.order;
    }
    SameRecords(catalog, items);
  }

  /** Whatever the services, a successful order lists the catalog with dependencies and managers first. */
  lemma OrderIsListing(catalog: seq<Provider>, g: GraphBuild.Result, services: seq<Service>, r: PolicyOrder.Outcome)
    requires DiagnosticFree(catalog, g) && ServicesFit(catalog, services)
    requires Reordered(Constructed(g), g.edges, services, r) && r.Ordered?
    ensures Listing(catalog, r.providers, AllDeps(g, services))
  {
    hide GraphBuild.Built, CatalogReady, Reordered, WithinCatalog, LeastOrder.DependenciesFirst, LeastOrder.Emit,
         Cyclic;
    ConstructedIsListing(catalog, g);
    if services == [] {
      NoServices(Constructed(g), g.edges, r);
      assert ManagerDeps(services) == {};
      assert AllDeps(g, services) == DependencyGraph.DependsOn(g.edges);
    } else {
      BuildThenReorder(catalog, g, services, r);
      ReorderedIsLeastOrder(Constructed(g), g.edges, services, r);
      IDsNotEmpty(catalog, g);
      EdgeDepsAreDependsOn(g.edges);
      SameRecords(catalog, r.providers);
    }
  }

  lemma NoServices(providers: seq<Provider>, edges: seq<Edge>, r: PolicyOrder.Outcome)
    requires Reordered(providers, edges, [], r)
    ensures r == Ordered(providers)
  {
  }

  lemma IDsNotEmpty(catalog: seq<Provider>, g: GraphBuild.Result)
    requires DiagnosticFree(catalog, g)
    ensures NoDuplicates(SymbolIDs(catalog))
    ensures forall i :: 0 <= i < |g.edges| ==> g.edges[i].consumerID != "" && g.edges[i].dependencyID != ""
  {
    hide GraphBuild.AllSettled, GraphBuild.OnlyInputs, GraphBuild.OnlyInputDiagnostics, GraphBuild.CyclesReported,
         Cyclic, LeastOrder.Emit, LeastOrder.Topological;
    forall i | 0 <= i < |g.edges| ensures g.edges[i].consumerID != "" && g.edges[i].dependencyID != "" {
      assert DependencyGraph.SoundEdge(catalog, g.edges[i]);
      assert SymbolIDs(catalog)[g.edges[i].consumer] in SymbolIDs(catalog)
             && SymbolIDs(catalog)[g.edges[i].dependency] in SymbolIDs(catalog);
    }
  }

  lemma GraphEdgesWithin(g: GraphBuild.Result, services: seq<Service>)
    ensures EdgesWithin(g.edges, AllDeps(g, services))
  {
    forall e | e in g.edges ensures (e.consumerID, e.dependencyID) in DependencyGraph.DependsOn(g.edges) {
      var i :| 0 <= i < |g.edges| && g.edges[i] == e;
    }
  }

  lemma ServiceManagersWithin(catalog: seq<Provider>, g: GraphBuild.Result, services: seq<Service>, c: Context)
    requires "" !in SymbolIDs(catalog) && ServicesFit(catalog, services) && c.services == IndexServices(services)
    ensures ManagersWithin(c, AllDeps(g, services))
  {
    forall id | id in c.services && c.services[id].managerID != ""
      ensures (id, c.services[id].managerID) in ManagerDeps(services)
    {
      var i :| 0 <= i < |services| && services[i] == c.services[id];
      assert services[i].providerID == id && services[i].providerID in SymbolIDs(catalog);
    }
  }

  /** Every argument passes what its input is wired to. */
  ghost predicate EverythingPasses(catalog: seq<Provider>, c: Context) {
    forall v: nat, k: nat :: DependencyGraph.IsInput(catalog, v, k) ==>
      && catalog[v].symbolID in c.args && k < |c.args[catalog[v].symbolID]|
      && Passes(catalog, c.exposed, catalog[v].dependencies[k], c.args[catalog[v].symbolID][k])
  }

  lemma CleanBuildResolves(catalog: seq<Provider>, g: GraphBuild.Result)
    requires DiagnosticFree(catalog, g)
    ensures GraphBuild.AllResolved(catalog, g.edges)
  {
    hide GraphBuild.AllSettled, GraphBuild.Built, GraphBuild.AllResolved;
    GraphBuild.FaultIffRejected(catalog, g);
  }

  lemma DiagnosticFreeFacts(catalog: seq<Provider>, g: GraphBuild.Result)
    requires DiagnosticFree(catalog, g)
    ensures CatalogReady(catalog) && DependencyGraph.SoundEdges(catalog, g.edges)
  {
    hide CatalogReady, DependencyGraph.SoundEdges;
  }

  lemma InputsAreWritable(catalog: seq<Provider>, g: GraphBuild.Result, items: seq<Provider>,
                          variables: map<string, string>, p: Provider)
    requires DiagnosticFree(catalog, g) && Renders(catalog, items, variables) && p in catalog
    ensures AllWritable(g.edges, variables, p) && Numbered(p)
  {
    hide Writable, Passes, Renders, GraphBuild.Resolved, GraphBuild.Built;
    CleanBuildResolves(catalog, g);
    DiagnosticFreeFacts(catalog, g);
    var v :| 0 <= v < |catalog| && catalog[v] == p;
    forall k | 0 <= k < |p.dependencies| ensures Writable(g.edges, variables, p, p.dependencies[k]) {
      assert DependencyGraph.IsInput(catalog, v, k);
      ResolvedInputPasses(catalog, g.edges, items, variables, v, k);
    }
  }

  lemma ArgumentsPass(catalog: seq<Provider>, g: GraphBuild.Result, items: seq<Provider>, c: Context)
    requires DiagnosticFree(catalog, g) && Renders(catalog, items, c.exposed) && ArgsRendered(g.edges, items, c)
    ensures EverythingPasses(catalog, c)
  {
    hide Writable, Passes, GraphBuild.Resolved, GraphBuild.Built, Argument;
    CleanBuildResolves(catalog, g);
    DiagnosticFreeFacts(catalog, g);
    forall v: nat, k: nat | DependencyGraph.IsInput(catalog, v, k)
      ensures catalog[v].symbolID in c.args && k < |c.args[catalog[v].symbolID]|
      ensures Passes(catalog, c.exposed, catalog[v].dependencies[k], c.args[catalog[v].symbolID][k])
    {
      assert catalog[v] in catalog && catalog[v] in items;
      assert ArgsOf(g.edges, items, c.exposed, catalog[v], c.args[catalog[v].symbolID]);
      assert GraphBuild.Resolved(catalog, g.edges, v, k);
      ResolvedInputPasses(catalog, g.edges, items, c.exposed, v, k);
    }
  }

  /** Every argument determines exactly the providers the wiring rules choose for its input. */
  ghost predicate EverythingArrives(catalog: seq<Provider>, c: Context) {
    forall v: nat, k: nat :: DependencyGraph.IsInput(catalog, v, k) ==>
      && catalog[v].symbolID in c.args && k < |c.args[catalog[v].symbolID]|
      && Receives(catalog, c.exposed, catalog[v].dependencies[k], c.args[catalog[v].symbolID][k])
  }

  ghost predicate Injective(m: map<string, string>) { forall a, b :: a in m && b in m && a != b ==> m[a] != m[b] }

  lemma LocalsDiffer(items: seq<Provider>, names: seq<string>, local: map<string, string>)
    requires |names| == |items| && local.Keys == LeastOrder.Elements(SymbolIDs(items))
    requires forall i :: 0 <= i < |items| ==> items[i].symbolID in local && local[items[i].symbolID] == names[i]
    requires NoDuplicates(names)
    ensures Injective(local)
  {
    forall a, b | a in local && b in local && a != b ensures local[a] != local[b] {
      var i :| 0 <= i < |items| && SymbolIDs(items)[i] == a;
      var j :| 0 <= j < |items| && SymbolIDs(items)[j] == b;
      if i < j { assert names[i] != names[j]; } else { assert names[j] != names[i]; }
    }
  }

  /** Fresh variables for decorated providers keep all exposed variables apart. */
  lemma ExposedDiffer(local: map<string, string>, services: seq<Service>, exposed: map<string, string>)
    requires Injective(local) && Exposed(local, services, exposed, |services|)
    ensures Injective(exposed)
  {
    var ids := ServiceIDs(services);
    assert ids[..|services|] == ids;
    forall a, b | a in exposed && b in exposed && a != b ensures exposed[a] != exposed[b] {
      if a in ids && b in ids {
        var i :| 0 <= i < |ids| && ids[i] == a;
        var j :| 0 <= j < |ids| && ids[j] == b;
        if i < j {
          assert Lookup(exposed, services[i].providerID) != Lookup(exposed, services[j].providerID);
        } else {
          assert Lookup(exposed, services[j].providerID) != Lookup(exposed, services[i].providerID);
        }
      } else if a in ids {
        NewIsNotLocal(local, services, exposed, a);
        assert exposed[b] == local[b] && local[b] in local.Values;
      } else if b in ids {
        NewIsNotLocal(local, services, exposed, b);
        assert exposed[a] == local[a] && local[a] in local.Values;
      }
    }
  }

  lemma NewIsNotLocal(local: map<string, string>, services: seq<Service>, exposed: map<string, string>, id: string)
    requires Exposed(local, services, exposed, |services|) && id in ServiceIDs(services)
    ensures id in exposed && exposed[id] !in local.Values
  {
    var i :| 0 <= i < |services| && ServiceIDs(services)[i] == id;
    assert ExposesNew(local, services, exposed, i);
  }

  lemma TwoProvidersApart(services: seq<Service>, c: Context, a: string, b: string)
    requires a != b && a in c.local && b in c.local && Injective(c.local) && Injective(c.exposed)
    requires Exposed(c.local, services, c.exposed, |services|)
    ensures VariablesFor(c, a) !! VariablesFor(c, b)
  {
    NewOrOwn(c.local, services, c.exposed, a);
    NewOrOwn(c.local, services, c.exposed, b);
    hide Exposed;
    assert c.local[a] in c.local.Values && c.local[b] in c.local.Values;
  }

  /** Distinct provider variables leave every provider variables of its own. */
  lemma VariablesStayApart(items: seq<Provider>, services: seq<Service>, names: seq<string>, c: Context)
    requires |names| == |items| && NoDuplicates(names) && VariablesFit(items, services, c)
    requires NoDuplicates(SymbolIDs(items))
    requires forall i :: 0 <= i < |items| ==> LocalOf(c, items[i].symbolID) == names[i]
    ensures VariablesApart(c, items)
  {
    hide Exposed, Injective, VariablesFor;
    var ids := SymbolIDs(items);
    IDsListed(items);
    LocalsDiffer(items, names, c.local);
    ExposedDiffer(c.local, services, c.exposed);
    forall i, j | 0 <= i < j < |items|
      ensures VariablesFor(c, items[i].symbolID) !! VariablesFor(c, items[j].symbolID)
    {
      assert ids[i] != ids[j];
      TwoProvidersApart(services, c, ids[i], ids[j]);
    }
    forall i | 0 <= i < |items| && items[i].symbolID in c.services
      ensures ExposedOf(c, items[i].symbolID) != LocalOf(c, items[i].symbolID)
    {
      NewIsNotLocal(c.local, services, c.exposed, ids[i]);
      assert c.local[ids[i]] in c.local.Values;
    }
  }

  lemma NewOrOwn(local: map<string, string>, services: seq<Service>, exposed: map<string, string>, id: string)
    requires Exposed(local, services, exposed, |services|) && id in local
    ensures id in exposed && (exposed[id] == local[id] || exposed[id] !in local.Values)
  {
    var ids := ServiceIDs(services);
    assert ids[..|services|] == ids;
    if id in ids { NewIsNotLocal(local, services, exposed, id); }
  }

  /** With distinct provider variables no argument can be read as other providers than the chosen ones. */
  lemma EverythingArrivesWhenDistinct(catalog: seq<Provider>, items: seq<Provider>, services: seq<Service>,
                                      names: seq<string>, c: Context)
    requires NoDuplicates(SymbolIDs(catalog)) && (forall p :: p in items <==> p in catalog)
    requires ServicesFit(catalog, services)
    requires |names| == |items| && NoDuplicates(names) && VariablesFit(items, services, c)
    requires EverythingPasses(catalog, c)
    requires forall i :: 0 <= i < |items| ==> LocalOf(c, items[i].symbolID) == names[i]
    ensures EverythingArrives(catalog, c)
  {
    hide Passes, Receives, ServicesFit;
    IDsListed(items);
    MapsFit(catalog, items, services, c);
    LocalsDiffer(items, names, c.local);
    ExposedDiffer(c.local, services, c.exposed);
    IDsSeparate(catalog, c.exposed);
    forall v: nat, k: nat | DependencyGraph.IsInput(catalog, v, k)
      ensures Receives(catalog, c.exposed, catalog[v].dependencies[k], c.args[catalog[v].symbolID][k])
    {
      ArgumentDeterminesProviders(catalog, c.exposed, catalog[v].dependencies[k], c.args[catalog[v].symbolID][k]);
    }
  }

  lemma IDsSeparate(catalog: seq<Provider>, exposed: map<string, string>)
    requires NoDuplicates(SymbolIDs(catalog)) && Injective(exposed)
    requires forall i :: 0 <= i < |catalog| ==> catalog[i].symbolID in exposed
    ensures Separate(catalog, exposed)
  {
    forall v, w | 0 <= v < w < |catalog| ensures VariableOf(catalog, exposed, v) != VariableOf(catalog, exposed, w) {
      assert SymbolIDs(catalog)[v] != SymbolIDs(catalog)[w];
    }
  }

  /** The variable maps of a listing. */
  ghost predicate VariablesFit(items: seq<Provider>, services: seq<Service>, c: Context) {
    && c.local.Keys == LeastOrder.Elements(SymbolIDs(items)) && Exposed(c.local, services, c.exposed, |services|)
    && c.services == IndexServices(services) && forall id :: id in c.local ==> c.local[id] != ""
  }

  lemma MapsFit(catalog: seq<Provider>, items: seq<Provider>, services: seq<Service>, c: Context)
    requires NoDuplicates(SymbolIDs(catalog)) && (forall p :: p in items <==> p in catalog)
    requires ServicesFit(catalog, services)
    requires VariablesFit(items, services, c)
    ensures Covers(items, c) && Renders(catalog, items, c.exposed) && forall p :: p in items ==> Exposes(c, p)
  {
    forall p | p in items ensures p.symbolID in c.local && p.symbolID in c.exposed && Exposes(c, p) {
      var i :| 0 <= i < |items| && items[i] == p;
      assert SymbolIDs(items)[i] in LeastOrder.Elements(SymbolIDs(items));
      var ids := ServiceIDs(services);
      assert ids[..|services|] == ids;
    }
    forall i | 0 <= i < |catalog| ensures catalog[i].symbolID in c.exposed { assert catalog[i] in items; }
  }

  lemma CycleDecides(catalog: seq<Provider>, g: GraphBuild.Result, services: seq<Service>, r: PolicyOrder.Outcome)
    requires DiagnosticFree(catalog, g) && ServicesFit(catalog, services)
    requires Reordered(Constructed(g), g.edges, services, r)
    ensures r.PolicyCycle? <==> services != [] && Cyclic(AllDeps(g, services))
  {
    hide GraphBuild.Built, CatalogReady, Reordered, Cyclic;
    if services == [] { NoServices(Constructed(g), g.edges, r); } else { BuildThenReorder(catalog, g, services, r); }
  }

  lemma LocalsFit(catalog: seq<Provider>, items: seq<Provider>, services: seq<Service>, names: seq<string>,
                  local: map<string, string>)
    requires ServicesFit(catalog, services) && (forall p :: p in items <==> p in catalog) && |names| == |items|
    requires "" !in names
    requires local.Keys == LeastOrder.Elements(SymbolIDs(items))
    requires forall i :: 0 <= i < |items| ==> items[i].symbolID in local && local[items[i].symbolID] == names[i]
    ensures forall i :: 0 <= i < |services| ==> services[i].providerID in local
    ensures forall id :: id in local ==> local[id] != ""
  {
    forall i | 0 <= i < |services| ensures services[i].providerID in local {
      var v :| 0 <= v < |catalog| && SymbolIDs(catalog)[v] == services[i].providerID;
      assert catalog[v] in items;
      var x :| 0 <= x < |items| && items[x] == catalog[v];
    }
    forall id | id in local ensures local[id] != "" {
      var i :| 0 <= i < |items| && SymbolIDs(items)[i] == id;
      assert names[i] in names;
    }
  }

  ghost predicate Authorizes(services: seq<Service>, meta: Metadata, authorization: bool) {
    !authorization ==> forall id :: id in ServiceIDs(services) ==> id !in meta.authorized
  }

  lemma ContextRenders(catalog: seq<Provider>, g: GraphBuild.Result, items: seq<Provider>, services: seq<Service>,
                       c: Context, authorization: bool)
    requires DiagnosticFree(catalog, g) && ServicesFit(catalog, services)
    requires Listing(catalog, items, AllDeps(g, services))
    requires MetadataFits(catalog, DependencyGraph.DependsOn(g.edges), c.meta)
    requires Authorizes(services, c.meta, authorization)
    requires VariablesFit(items, services, c) && ArgsRendered(g.edges, items, c)
    ensures forall i :: 0 <= i < |items| ==> FaultOf(c, items[i]) == None
    ensures WellScoped(Body(c, items), Parameters(authorization)) && EverythingPasses(catalog, c)
  {
    hide GraphBuild.Built, CatalogReady, ArgsRendered, FaultOf, Body, WellScoped, EverythingPasses,
         LeastOrder.DependenciesFirst, Renders, Covers, Exposes, Exposed, EdgesWithin, ManagersWithin;
    var deps := AllDeps(g, services);
    IDsNotEmpty(catalog, g);
    MapsFit(catalog, items, services, c);
    GraphEdgesWithin(g, services);
    ServiceManagersWithin(catalog, g, services, c);
    MoreDeps(catalog, g, services, c.meta);
    BodyRenders(catalog, items, g.edges, deps, c, authorization);
    ArgumentsPass(catalog, g, items, c);
  }

  lemma MoreDeps(catalog: seq<Provider>, g: GraphBuild.Result, services: seq<Service>, meta: Metadata)
    requires MetadataFits(catalog, DependencyGraph.DependsOn(g.edges), meta)
    ensures MetadataFits(catalog, AllDeps(g, services), meta)
  {
    forall p | p in catalog ensures MetadataFor(p, AllDeps(g, services), meta) {
      assert MetadataFor(p, DependencyGraph.DependsOn(g.edges), meta);
    }
  }

  /** Names, wires and writes an ordered list of providers. */
  method RenderOrdered(catalog: seq<Provider>, g: GraphBuild.Result, items: seq<Provider>, services: seq<Service>,
                       meta: Metadata, authorization: bool, names: seq<string>)
      returns (r: Rendering, c: Context)
    requires DiagnosticFree(catalog, g) && ServicesFit(catalog, services)
    requires Listing(catalog, items, AllDeps(g, services))
    requires MetadataFits(catalog, DependencyGraph.DependsOn(g.edges), meta)
    requires Authorizes(services, meta, authorization)
    requires |names| == |items| && "" !in names
    ensures r == Source(Body(c, items)) && WellScoped(r.body, Parameters(authorization))
    ensures WritesEach(c, items, r.body)
    ensures EverythingPasses(catalog, c) && VariablesFit(items, services, c) && c.meta == meta
    ensures forall i :: 0 <= i < |items| ==> LocalOf(c, items[i].symbolID) == names[i]
  {
    hide DiagnosticFree, FaultOf, Body, WellScoped, EverythingPasses, LeastOrder.DependenciesFirst, Renders, Covers,
         Exposes, Exposed, MetadataFits, Authorizes, AllWritable, ArgsOf, IndexServices, WritesEach;
    var local := TargetProviderVariables(items, names);
    IDsListed(items);
    LocalsFit(catalog, items, services, names, local);
    var exposed := PolicyExposureVariables(local, services);
    CatalogIDs(catalog, g);
    MapsFit(catalog, items, services, Context(meta, map[], local, exposed, IndexServices(services)));
    forall i | 0 <= i < |items| ensures AllWritable(g.edges, exposed, items[i]) && Numbered(items[i]) {
      assert items[i] in items;
      InputsAreWritable(catalog, g, items, exposed, items[i]);
    }
    var inputs := DependencyVariables(g.edges, items, exposed);
    if !inputs.Rendered? { return BadInput(inputs), Context(meta, map[], local, exposed, map[]); }
    c := Context(meta, inputs.args, local, exposed, IndexServices(services));
    forall p | p in items ensures p.symbolID in c.args && ArgsOf(g.edges, items, exposed, p, c.args[p.symbolID]) {
      var i :| 0 <= i < |items| && items[i] == p;
    }
    ContextRenders(catalog, g, items, services, c, authorization);
    var body, fault := WriteProviders(c, items);
    if fault.Some? { return BadProvider(fault), c; }
    r := Source(body);
  }

  lemma IDsListed(items: seq<Provider>)
    ensures forall i :: 0 <= i < |items| ==> items[i].symbolID in LeastOrder.Elements(SymbolIDs(items))
  {
    forall i | 0 <= i < |items| ensures items[i].symbolID in LeastOrder.Elements(SymbolIDs(items)) {
      assert SymbolIDs(items)[i] in SymbolIDs(items);
    }
  }

  lemma CatalogIDs(catalog: seq<Provider>, g: GraphBuild.Result)
    requires DiagnosticFree(catalog, g)
    ensures NoDuplicates(SymbolIDs(catalog))
  {
  }

  /** What naming reads of each provider. */
  function Origins(items: seq<Provider>, describe: Provider -> Naming.Origin): (r: seq<Naming.Origin>)
    ensures |r| == |items|
  {
    seq(|items|, i requires 0 <= i < |items| => describe(items[i]))
  }

  lemma VariablesAreNamed(u: Identifiers.Unicode, items: seq<Provider>, origins: seq<Naming.Origin>, names: seq<string>)
    requires Identifiers.Standard(u) && |items| == |origins| == |names|
    requires forall i :: 0 <= i < |items| ==> names[i] == Naming.VariableAt(Naming.FinalBases(u, items, origins), i)
    ensures "" !in names
    ensures !Naming.SomeShadow(Naming.FinalBases(u, items, origins)) ==> NoDuplicates(names)
  {
    hide Naming.FinalBases, Naming.VariableAt, Naming.SomeShadow, Identifiers.Standard;
    forall i | 0 <= i < |names| ensures names[i] != "" { Naming.VariablesAreIdentifiers(u, items, origins, i); }
    Naming.VariablesDistinctIff(Naming.FinalBases(u, items, origins));
  }

  /**
   * Orders, names, wires and writes. Without a policy cycle the result is a well-scoped body in which every
   * argument passes what its input is wired to. Unless one provider's name shadows another's, the variables of an
   * argument determine exactly the chosen providers, and no name is declared twice exactly when no provider's
   * variable is the name of another one's helper.
   */
  method RenderConstructor(catalog: seq<Provider>, g: GraphBuild.Result, services: seq<Service>, meta: Metadata,
                           authorization: bool, u: Identifiers.Unicode, describe: Provider -> Naming.Origin)
      returns (r: Rendering, c: Context, items: seq<Provider>)
    requires DiagnosticFree(catalog, g) && ServicesFit(catalog, services)
    requires MetadataFits(catalog, DependencyGraph.DependsOn(g.edges), meta)
    requires Authorizes(services, meta, authorization) && Identifiers.Standard(u)
    ensures r.PolicyDiagnostic? <==> services != [] && Cyclic(AllDeps(g, services))
    ensures !r.PolicyDiagnostic? ==>
              && r == Source(Body(c, items)) && WellScoped(r.body, Parameters(authorization))
              && WritesEach(c, items, r.body)
              && Listing(catalog, items, AllDeps(g, services)) && EverythingPasses(catalog, c)
              && VariablesFit(items, services, c)
    ensures !r.PolicyDiagnostic? ==>
              var finals := Naming.FinalBases(u, items, Origins(items, describe));
              && (forall i :: 0 <= i < |items| ==> LocalOf(c, items[i].symbolID) == Naming.VariableAt(finals, i))
              && (!Naming.SomeShadow(finals) ==>
                    EverythingArrives(catalog, c) && (DeclaredOnce(r.body) <==> !SomeHelperMeets(c, items)))
  {
    hide *;
    c, items := Context(meta, map[], map[], map[], map[]), [];
    var order := OrderProvidersForPolicies(Constructed(g), g.edges, services);
    CycleDecides(catalog, g, services, order);
    if order.PolicyCycle? { return PolicyDiagnostic(order.symbolID), c, items; }
    OrderIsListing(catalog, g, services, order);
    items := order.providers;
    var names := Naming.ProviderVariableNames(u, items, Origins(items, describe));
    VariablesAreNamed(u, items, Origins(items, describe), names);
    r, c := RenderOrdered(catalog, g, items, services, meta, authorization, names);
    if !Naming.SomeShadow(Naming.FinalBases(u, items, Origins(items, describe))) {
      ArrivesInListing(catalog, g, items, services, names, c);
      DeclaresInListing(catalog, g, items, services, names, c);
    }
  }

  lemma DeclaresInListing(catalog: seq<Provider>, g: GraphBuild.Result, items: seq<Provider>, services: seq<Service>,
                          names: seq<string>, c: Context)
    requires DiagnosticFree(catalog, g) && ServicesFit(catalog, services)
    requires Listing(catalog, items, AllDeps(g, services))
    requires |names| == |items| && NoDuplicates(names) && VariablesFit(items, services, c)
    requires forall i :: 0 <= i < |items| ==> LocalOf(c, items[i].symbolID) == names[i]
    ensures DeclaredOnce(Body(c, items)) <==> !SomeHelperMeets(c, items)
  {
    hide DiagnosticFree, VariablesFit, LeastOrder.DependenciesFirst, ServicesFit, DeclaredOnce, SomeHelperMeets, Body,
         VariablesApart, Exposes;
    CatalogIDs(catalog, g);
    MapsFit(catalog, items, services, c);
    VariablesStayApart(items, services, names, c);
    forall i | 0 <= i < |items| ensures Exposes(c, items[i]) { assert items[i] in items; }
    DeclaredOnceIff(c, items);
  }

  lemma ArrivesInListing(catalog: seq<Provider>, g: GraphBuild.Result, items: seq<Provider>, services: seq<Service>,
                         names: seq<string>, c: Context)
    requires DiagnosticFree(catalog, g) && ServicesFit(catalog, services)
    requires Listing(catalog, items, AllDeps(g, services))
    requires |names| == |items| && NoDuplicates(names) && VariablesFit(items, services, c)
    requires EverythingPasses(catalog, c)
    requires forall i :: 0 <= i < |items| ==> LocalOf(c, items[i].symbolID) == names[i]
    ensures EverythingArrives(catalog, c)
  {
    hide DiagnosticFree, EverythingPasses, EverythingArrives, VariablesFit, LeastOrder.DependenciesFirst, ServicesFit;
    CatalogIDs(catalog, g);
    EverythingArrivesWhenDistinct(catalog, items, services, names, c);
  }
}
