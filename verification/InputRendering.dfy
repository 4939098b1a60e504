/**
 * Constructor arguments for every input of every provider (compiler/generate/dependency_render.go:
 * dependencyVariablesWithExposure).
 */
module InputRendering {
  import opened Catalog
  import opened Digraph
  import opened Sorting
  import opened Wiring
  import opened DependencyGraph
  import opened Selection
  import GraphBuild

  /** An argument expression, by the variables it uses. */
  datatype Expr =
    | Absent
    | Variable(name: string)
    | SliceOf(names: seq<string>)
    | MapOf(keys: seq<string>, names: seq<string>)
    | NoneOf
    | SomeOf(name: string)
    | LazyOf(name: string)
    | ProviderOf(name: string)

  function Names(e: Expr): seq<string> {
    match e
    case Absent => []
    case Variable(name) => [name]
    case SliceOf(names) => names
    case MapOf(_, names) => names
    case NoneOf => []
    case SomeOf(name) => [name]
    case LazyOf(name) => [name]
    case ProviderOf(name) => [name]
  }

  datatype Inputs = Rendered(args: map<string, seq<Expr>>) | NoEdge(providerID: string, parameter: nat)
    | UnknownProvider(providerID: string, parameter: nat, dependencyID: string)

  // ----- One argument ----------------------------------------------------------------------------

  function ProviderByID(providers: seq<Provider>, id: string): (r: Option<Provider>)
    ensures r.Some? ==> r.value in providers && r.value.symbolID == id
    ensures r.None? ==> forall p :: p in providers ==> p.symbolID != id
  {
    if providers == [] then None
    else if providers[0].symbolID == id then Some(providers[0])
    else
      assert providers == [providers[0]] + providers[1..];
      ProviderByID(providers[1..], id)
  }

  function DependencyExpression(kind: DependencyKind, variables: seq<string>, selected: seq<Option<Provider>>): Expr
    requires |variables| == |selected| && (kind == KindLazy || kind == KindProvider ==> variables != [])
  {
    match kind
    case KindSingle => if variables == [] then Absent else Variable(variables[0])
    case KindSlice => SliceOf(variables)
    case KindMap =>
      MapOf(seq(|selected|,
                i requires 0 <= i < |selected| => if selected[i].Some? then selected[i].value.name else ""), variables)
    case KindOptional => if variables == [] then NoneOf else SomeOf(variables[0])
    case KindLazy => LazyOf(variables[0])
    case KindProvider =>
      if selected[0].Some? && selected[0].value.scope != Singleton then Variable(variables[0])
      else ProviderOf(variables[0])
  }

  /** The edges of one input, in the order the graph lists them. */
  function EdgesAt(edges: seq<Edge>, consumerID: string, parameter: nat): (r: seq<Edge>)
    ensures forall e :: e in r ==> e in edges && e.consumerID == consumerID && e.parameterIndex == parameter
  {
    if edges == [] then []
    else
      var last := edges[|edges|-1];
      var before := EdgesAt(edges[..|edges|-1], consumerID, parameter);
      assert forall e :: e in before ==> e in edges[..|edges|-1];
      if last.consumerID == consumerID && last.parameterIndex == parameter then before + [last] else before
  }

  function ByIndex(): (Edge, Edge) -> bool { (a: Edge, b: Edge) => a.collectionIndex < b.collectionIndex }

  predicate MayBeEmpty(kind: DependencyKind) { kind == KindSlice || kind == KindMap || kind == KindOptional }

  /** What an input is wired to, in position order. */
  function SelectedEdges(edges: seq<Edge>, item: Provider, parameter: nat): seq<Edge> {
    StableSort(EdgesAt(edges, item.symbolID, parameter), ByIndex())
  }

  predicate AllKnown(selected: seq<Edge>, variables: map<string, string>) {
    forall i :: 0 <= i < |selected| ==> selected[i].dependencyID in variables
  }

  /** An input can be written when it has the edges its kind needs and every provider on them is known. */
  predicate Writable(edges: seq<Edge>, variables: map<string, string>, item: Provider, input: Dependency) {
    var selected := SelectedEdges(edges, item, input.index);
    (selected != [] || input.kind in {KindSlice, KindMap, KindOptional}) && AllKnown(selected, variables)
  }

  function Variables(selected: seq<Edge>, variables: map<string, string>): (r: seq<string>)
    requires AllKnown(selected, variables)
    ensures |r| == |selected|
  {
    seq(|selected|, i requires 0 <= i < |selected| => variables[selected[i].dependencyID])
  }

  function Providers(selected: seq<Edge>, providers: seq<Provider>): (r: seq<Option<Provider>>)
    ensures |r| == |selected|
  {
    seq(|selected|, i requires 0 <= i < |selected| => ProviderByID(providers, selected[i].dependencyID))
  }

  function Argument(edges: seq<Edge>, providers: seq<Provider>, variables: map<string, string>, item: Provider,
                    input: Dependency): Expr
    requires Writable(edges, variables, item, input)
  {
    var selected := SelectedEdges(edges, item, input.index);
    DependencyExpression(if selected != [] && selected[0].kind == KindSingle then KindSingle else input.kind,
                         Variables(selected, variables), Providers(selected, providers))
  }

  // ----- All arguments ---------------------------------------------------------------------------

  ghost predicate ArgsOf(edges: seq<Edge>, providers: seq<Provider>, variables: map<string, string>, item: Provider,
                         args: seq<Expr>) {
    && |args| == |item.dependencies|
    && forall k :: 0 <= k < |args| ==>
         Writable(edges, variables, item, item.dependencies[k])
         && args[k] == Argument(edges, providers, variables, item, item.dependencies[k])
  }

  ghost predicate AllWritable(edges: seq<Edge>, variables: map<string, string>, item: Provider) {
    forall k :: 0 <= k < |item.dependencies| ==> Writable(edges, variables, item, item.dependencies[k])
  }

  predicate Numbered(item: Provider) { forall k :: 0 <= k < |item.dependencies| ==> item.dependencies[k].index == k }

  /** The arguments of one provider, or the first input that cannot be written. */
  method ProviderArguments(edges: seq<Edge>, providers: seq<Provider>, variables: map<string, string>, item: Provider)
      returns (args: seq<Expr>, fault: Option<Inputs>)
    requires Numbered(item)
    ensures fault.None? <==> AllWritable(edges, variables, item)
    ensures fault.None? ==> ArgsOf(edges, providers, variables, item, args)
    ensures fault.Some? ==> !fault.value.Rendered? && fault.value.providerID == item.symbolID
  {
    hide SelectedEdges, DependencyExpression, Providers;
    args, fault := seq(|item.dependencies|, _ => Absent), None;
    for k := 0 to |item.dependencies|
      invariant |args| == |item.dependencies| && fault == None
      invariant forall j :: 0 <= j < k ==>
        Writable(edges, variables, item, item.dependencies[j])
        && args[j] == Argument(edges, providers, variables, item, item.dependencies[j])
    {
      var input := item.dependencies[k];
      var selected := SelectedEdges(edges, item, input.index);
      if |selected| == 0 && !MayBeEmpty(input.kind) { return args, Some(NoEdge(item.symbolID, input.index)); }
      var used: seq<string> := [];
      for i := 0 to |selected|
        invariant |used| == i
        invariant forall j :: 0 <= j < i ==>
                    selected[j].dependencyID in variables && used[j] == variables[selected[j].dependencyID]
      {
        if selected[i].dependencyID !in variables {
          return args, Some(UnknownProvider(item.symbolID, input.index, selected[i].dependencyID));
        }
        used := used + [variables[selected[i].dependencyID]];
      }
      assert used == Variables(selected, variables);
      var kind := if |selected| != 0 && selected[0].kind == KindSingle then KindSingle else input.kind;
      args := args[input.index := DependencyExpression(kind, used, Providers(selected, providers))];
    }
  }

  /** The arguments of all providers. */
  method DependencyVariables(edges: seq<Edge>, providers: seq<Provider>, variables: map<string, string>)
      returns (r: Inputs)
    requires NoDuplicates(SymbolIDs(providers)) && forall i :: 0 <= i < |providers| ==> Numbered(providers[i])
    ensures r.Rendered? <==> forall i :: 0 <= i < |providers| ==> AllWritable(edges, variables, providers[i])
    ensures r.Rendered? ==> forall i :: 0 <= i < |providers| ==>
              providers[i].symbolID in r.args
              && ArgsOf(edges, providers, variables, providers[i], r.args[providers[i].symbolID])
  {
    hide ArgsOf, AllWritable;
    var args: map<string, seq<Expr>> := map[];
    for i := 0 to |providers|
      invariant forall j :: 0 <= j < i ==> AllWritable(edges, variables, providers[j])
      invariant forall j :: 0 <= j < i ==>
        providers[j].symbolID in args && ArgsOf(edges, providers, variables, providers[j], args[providers[j].symbolID])
    {
      var list, fault := ProviderArguments(edges, providers, variables, providers[i]);
      if fault.Some? { return fault.value; }
      forall j | 0 <= j < i ensures providers[j].symbolID != providers[i].symbolID {
        assert SymbolIDs(providers)[j] != SymbolIDs(providers)[i];
      }
      args := args[providers[i].symbolID := list];
    }
    r := Rendered(args);
  }

  // ----- Inputs of a diagnostic-free graph -------------------------------------------------------

  lemma LastAgrees(a: seq<Edge>, b: seq<Edge>)
    requires |a| == |b| > 0 && SortedBy(a, ByIndex()) && (forall e :: e in a <==> e in b)
    requires forall k :: 0 <= k < |b| ==> b[k].collectionIndex == k
    ensures a[|a|-1] == b[|b|-1]
  {
    var n := |b| - 1;
    assert b[n] in b && b[n] in a && a[n] in a && a[n] in b;
    var j :| 0 <= j < |a| && a[j] == b[n];
    var k :| 0 <= k < |b| && b[k] == a[n];
    assert j < n ==> !ByIndex()(a[n], a[j]);
  }

  lemma DropLast(a: seq<Edge>, b: seq<Edge>)
    requires |a| == |b| > 0 && multiset(a) == multiset(b) && a[|a|-1] == b[|b|-1]
    ensures multiset(a[..|a|-1]) == multiset(b[..|b|-1])
  {
    assert a == a[..|a|-1] + [a[|a|-1]] && b == b[..|b|-1] + [b[|b|-1]];
    assert multiset(a[..|a|-1]) == multiset(a) - multiset{a[|a|-1]};
    assert multiset(b[..|b|-1]) == multiset(b) - multiset{b[|b|-1]};
  }

  lemma {:induction false} SortedPositionsAreUnique(a: seq<Edge>, b: seq<Edge>)
    requires multiset(a) == multiset(b) && SortedBy(a, ByIndex())
    requires forall k :: 0 <= k < |b| ==> b[k].collectionIndex == k
    ensures a == b
    decreases |b|
  {
    assert |a| == |multiset(a)| == |multiset(b)| == |b|;
    if b != [] {
      SameElements(a, b);
      LastAgrees(a, b);
      DropLast(a, b);
      SortedPositionsAreUnique(a[..|a|-1], b[..|b|-1]);
      assert a == a[..|a|-1] + [a[|a|-1]] && b == b[..|b|-1] + [b[|b|-1]];
    }
  }

  lemma {:induction false} EdgesAtIsEdgesFor(catalog: seq<Provider>, edges: seq<Edge>, c: nat, k: nat)
    requires NoDuplicates(SymbolIDs(catalog)) && SoundEdges(catalog, edges) && c < |catalog|
    ensures EdgesAt(edges, catalog[c].symbolID, k) == EdgesFor(edges, c, k)
  {
    if edges != [] {
      var last := edges[|edges|-1];
      assert SoundEdge(catalog, last);
      assert SoundEdges(catalog, edges[..|edges|-1]);
      EdgesAtIsEdgesFor(catalog, edges[..|edges|-1], c, k);
      var ids := SymbolIDs(catalog);
      assert ids[last.consumer] == last.consumerID && ids[c] == catalog[c].symbolID;
    }
  }

  /** Selected edges are exactly the edges of the resolved outcome, in its order. */
  lemma SelectedAreResolved(catalog: seq<Provider>, edges: seq<Edge>, c: nat, k: nat, es: seq<Edge>)
    requires NoDuplicates(SymbolIDs(catalog)) && SoundEdges(catalog, edges) && c < |catalog|
    requires multiset(EdgesFor(edges, c, k)) == multiset(es)
    requires forall i :: 0 <= i < |es| ==> es[i].collectionIndex == i
    ensures SelectedEdges(edges, catalog[c], k) == es
  {
    EdgesAtIsEdgesFor(catalog, edges, c, k);
    var all := EdgesAt(edges, catalog[c].symbolID, k);
    IntOrderIsStrictWeak(ByIndex(), (e: Edge) => e.collectionIndex);
    StableSortSorted(all, ByIndex());
    SortedPositionsAreUnique(StableSort(all, ByIndex()), es);
  }

  /** The same records under unique identifiers, and a variable for each. */
  ghost predicate Renders(catalog: seq<Provider>, providers: seq<Provider>, variables: map<string, string>) {
    && NoDuplicates(SymbolIDs(catalog))
    && (forall p :: p in providers <==> p in catalog)
    && (forall i :: 0 <= i < |catalog| ==> catalog[i].symbolID in variables)
  }

  function VariableOf(catalog: seq<Provider>, variables: map<string, string>, v: nat): string {
    if v < |catalog| && catalog[v].symbolID in variables then variables[catalog[v].symbolID] else ""
  }

  function VariablesOf(catalog: seq<Provider>, variables: map<string, string>, order: seq<nat>): seq<string> {
    seq(|order|, i requires 0 <= i < |order| => VariableOf(catalog, variables, order[i]))
  }

  function NamesOf(catalog: seq<Provider>, order: seq<nat>): seq<string> {
    seq(|order|, i requires 0 <= i < |order| => NameAt(catalog, order[i]))
  }

  /**
   * The expression passes what the wiring rules choose: the one top-ranked provider, or all candidates in
   * collection order.
   */
  ghost predicate Passes(catalog: seq<Provider>, variables: map<string, string>, input: Dependency, e: Expr) {
    var kind, candidates := EffectiveKind(catalog, input), Candidates(catalog, input);
    if Collects(kind) then exists order :: PassesAll(catalog, variables, kind, candidates, order, e)
    else if candidates == {} then input.kind == KindOptional && e == NoneOf
    else exists p: nat :: TopRanked(candidates, input.name, catalog) == {p} && PassesOne(catalog, variables, kind, p, e)
  }

  ghost predicate PassesAll(catalog: seq<Provider>, variables: map<string, string>, kind: DependencyKind,
                            candidates: set<nat>, order: seq<nat>, e: Expr) {
    && InCollectionOrder(catalog, candidates, order)
    && (forall v :: v in candidates ==> !Scoped(catalog, v))
    && (kind == KindSlice ==> e == SliceOf(VariablesOf(catalog, variables, order)))
    && (kind == KindMap ==>
          e == MapOf(NamesOf(catalog, order), VariablesOf(catalog, variables, order))
          && NoDuplicates(NamesOf(catalog, order)))
  }

  ghost predicate PassesOne(catalog: seq<Provider>, variables: map<string, string>, kind: DependencyKind, p: nat,
                            e: Expr) {
    && p < |catalog| && (kind != KindProvider ==> catalog[p].scope == Singleton)
    && e == ExprOfOne(kind, catalog[p], VariableOf(catalog, variables, p))
  }

  lemma FoundByID(catalog: seq<Provider>, providers: seq<Provider>, variables: map<string, string>, v: nat)
    requires Renders(catalog, providers, variables) && v < |catalog|
    ensures ProviderByID(providers, catalog[v].symbolID) == Some(catalog[v])
  {
    var id := catalog[v].symbolID;
    assert catalog[v] in catalog;
    var found := ProviderByID(providers, id);
    assert found.Some?;
    var w :| 0 <= w < |catalog| && catalog[w] == found.value;
    assert SymbolIDs(catalog)[w] == SymbolIDs(catalog)[v];
  }

  function ExprOfOne(kind: DependencyKind, p: Provider, v: string): Expr {
    match kind
    case KindOptional => SomeOf(v)
    case KindLazy => LazyOf(v)
    case KindProvider => if p.scope != Singleton then Variable(v) else ProviderOf(v)
    case _ => Variable(v)
  }

  lemma OneArgument(edges: seq<Edge>, providers: seq<Provider>, variables: map<string, string>, item: Provider,
                    input: Dependency, edge: Edge, p: Provider)
    requires SelectedEdges(edges, item, input.index) == [edge] && !Collects(edge.kind)
    requires edge.kind == KindSingle || edge.kind == input.kind
    requires edge.dependencyID == p.symbolID && p.symbolID in variables
    requires ProviderByID(providers, p.symbolID) == Some(p)
    ensures Writable(edges, variables, item, input)
    ensures Argument(edges, providers, variables, item, input) == ExprOfOne(edge.kind, p, variables[p.symbolID])
  {
    hide SelectedEdges, ProviderByID;
  }

  lemma NoArgument(edges: seq<Edge>, providers: seq<Provider>, variables: map<string, string>, item: Provider,
                   input: Dependency)
    requires SelectedEdges(edges, item, input.index) == [] && input.kind == KindOptional
    ensures Writable(edges, variables, item, input) && Argument(edges, providers, variables, item, input) == NoneOf
  {
    hide SelectedEdges, ProviderByID;
  }

  lemma KindIsKept(catalog: seq<Provider>, input: Dependency)
    ensures EffectiveKind(catalog, input) == input.kind
            || (Collects(input.kind) && EffectiveKind(catalog, input) == KindSingle)
  {
  }

  lemma SingleInputPasses(catalog: seq<Provider>, edges: seq<Edge>, providers: seq<Provider>,
                          variables: map<string, string>, c: nat, k: nat, es: seq<Edge>)
    requires CatalogReady(catalog) && SoundEdges(catalog, edges) && Renders(catalog, providers, variables)
    requires IsInput(catalog, c, k)
    requires multiset(EdgesFor(edges, c, k)) == multiset(es)
    requires var input := catalog[c].dependencies[k]; var kind := EffectiveKind(catalog, input);
             !Collects(kind) && SingleOutcome(catalog, c, input, kind, Candidates(catalog, input), es, [])
    ensures Writable(edges, variables, catalog[c], catalog[c].dependencies[k])
    ensures Passes(catalog, variables, catalog[c].dependencies[k],
                   Argument(edges, providers, variables, catalog[c], catalog[c].dependencies[k]))
  {
    hide SelectedEdges, EdgesFor, SoundEdges, Candidates, TopRanked, Direct, Argument, Writable, ProviderByID;
    var input := catalog[c].dependencies[k];
    var kind, candidates := EffectiveKind(catalog, input), Candidates(catalog, input);
    SelectedAreResolved(catalog, edges, c, k, es);
    if candidates == {} {
      NoArgument(edges, providers, variables, catalog[c], input);
    } else {
      var p: nat :| p < |catalog| && TopRanked(candidates, input.name, catalog) == {p};
      var edge := EdgeTo(catalog, c, p, input, kind, 0);
      assert es == [edge];
      KindIsKept(catalog, input);
      FoundByID(catalog, providers, variables, p);
      OneArgument(edges, providers, variables, catalog[c], input, edge, catalog[p]);
      assert PassesOne(catalog, variables, kind, p, Argument(edges, providers, variables, catalog[c], input));
    }
  }

  lemma ManyArguments(edges: seq<Edge>, providers: seq<Provider>, variables: map<string, string>, item: Provider,
                      input: Dependency, es: seq<Edge>, catalog: seq<Provider>, order: seq<nat>)
    requires SelectedEdges(edges, item, input.index) == es && Collects(input.kind) && |es| == |order|
    requires forall i :: 0 <= i < |es| ==> es[i].kind == input.kind && order[i] < |catalog|
    requires forall i :: 0 <= i < |es| ==>
               es[i].dependencyID == catalog[order[i]].symbolID && es[i].dependencyID in variables
    requires forall i :: 0 <= i < |es| ==> ProviderByID(providers, es[i].dependencyID) == Some(catalog[order[i]])
    ensures Writable(edges, variables, item, input)
    ensures input.kind == KindSlice ==>
              Argument(edges, providers, variables, item, input) == SliceOf(VariablesOf(catalog, variables, order))
    ensures input.kind == KindMap ==>
              Argument(edges, providers, variables, item, input)
              == MapOf(NamesOf(catalog, order), VariablesOf(catalog, variables, order))
  {
    hide SelectedEdges, ProviderByID;
    assert AllKnown(es, variables);
    assert Variables(es, variables) == VariablesOf(catalog, variables, order);
    var found := Providers(es, providers);
    assert seq(|found|, i requires 0 <= i < |found| => if found[i].Some? then found[i].value.name else "")
           == NamesOf(catalog, order);
  }

  lemma CollectionInputPasses(catalog: seq<Provider>, edges: seq<Edge>, providers: seq<Provider>,
                              variables: map<string, string>, c: nat, k: nat, es: seq<Edge>)
    requires CatalogReady(catalog) && SoundEdges(catalog, edges) && Renders(catalog, providers, variables)
    requires IsInput(catalog, c, k)
    requires multiset(EdgesFor(edges, c, k)) == multiset(es)
    requires var input := catalog[c].dependencies[k]; var kind := EffectiveKind(catalog, input);
             Collects(kind) && CollectionOutcome(catalog, c, input, kind, Candidates(catalog, input), es, [])
    ensures Writable(edges, variables, catalog[c], catalog[c].dependencies[k])
    ensures Passes(catalog, variables, catalog[c].dependencies[k],
                   Argument(edges, providers, variables, catalog[c], catalog[c].dependencies[k]))
  {
    hide SelectedEdges, EdgesFor, SoundEdges, Candidates, Direct, SortedBy, CollectionBefore, Argument, Writable,
         ProviderByID;
    var input := catalog[c].dependencies[k];
    var kind, candidates := EffectiveKind(catalog, input), Candidates(catalog, input);
    var order :| InCollectionOrder(catalog, candidates, order) && EdgesInOrder(catalog, c, input, kind, order, es);
    SelectedAreResolved(catalog, edges, c, k, es);
    forall i | 0 <= i < |order|
      ensures order[i] < |catalog| && ProviderByID(providers, catalog[order[i]].symbolID) == Some(catalog[order[i]])
    {
      FoundByID(catalog, providers, variables, order[i]);
    }
    ManyArguments(edges, providers, variables, catalog[c], input, es, catalog, order);
    if kind == KindMap { KeysAreDistinct(catalog, candidates, order); }
    assert PassesAll(catalog, variables, kind, candidates, order,
                     Argument(edges, providers, variables, catalog[c], input));
  }

  lemma KeysAreDistinct(catalog: seq<Provider>, candidates: set<nat>, order: seq<nat>)
    requires InCollectionOrder(catalog, candidates, order) && !exists name :: NamesClash(catalog, candidates, name)
    ensures NoDuplicates(NamesOf(catalog, order))
  {
    hide SortedBy, CollectionBefore;
    forall i, j | 0 <= i < j < |order| ensures NamesOf(catalog, order)[i] != NamesOf(catalog, order)[j] {
      assert order[i] != order[j] && order[i] in candidates && order[j] in candidates;
      assert !NamesClash(catalog, candidates, NameAt(catalog, order[i]));
    }
  }

  /** In a diagnostic-free graph every input can be written and passes what it is wired to: neither fault can occur. */
  lemma ResolvedInputPasses(catalog: seq<Provider>, edges: seq<Edge>, providers: seq<Provider>,
                            variables: map<string, string>, c: nat, k: nat)
    requires CatalogReady(catalog) && SoundEdges(catalog, edges) && Renders(catalog, providers, variables)
    requires GraphBuild.Resolved(catalog, edges, c, k)
    ensures Writable(edges, variables, catalog[c], catalog[c].dependencies[k])
    ensures Passes(catalog, variables, catalog[c].dependencies[k],
                   Argument(edges, providers, variables, catalog[c], catalog[c].dependencies[k]))
  {
    hide SingleOutcome, CollectionOutcome, Passes, Writable, EdgesFor, SoundEdges, CatalogReady, EffectiveKind,
         Candidates;
    var input := catalog[c].dependencies[k];
    var es :| multiset(EdgesFor(edges, c, k)) == multiset(es) && InputOutcome(catalog, c, input, es, []);
    if Collects(EffectiveKind(catalog, input)) {
      CollectionInputPasses(catalog, edges, providers, variables, c, k, es);
    } else {
      SingleInputPasses(catalog, edges, providers, variables, c, k, es);
    }
  }

  // ----- From variables back to providers --------------------------------------------------------

  /** Different providers are exposed under different variables. */
  ghost predicate Separate(catalog: seq<Provider>, variables: map<string, string>) {
    forall v, w :: 0 <= v < w < |catalog| ==> VariableOf(catalog, variables, v) != VariableOf(catalog, variables, w)
  }

  /** The expression's variables are those of the listed providers, in that order. */
  ghost predicate Carries(catalog: seq<Provider>, variables: map<string, string>, e: Expr, order: seq<nat>) {
    (forall i :: 0 <= i < |order| ==> order[i] < |catalog|) && Names(e) == VariablesOf(catalog, variables, order)
  }

  /** The list is what the wiring rules choose: nothing, the one top-ranked provider, or all candidates in order. */
  ghost predicate Chosen(catalog: seq<Provider>, input: Dependency, order: seq<nat>) {
    var kind, candidates := EffectiveKind(catalog, input), Candidates(catalog, input);
    if Collects(kind) then InCollectionOrder(catalog, candidates, order)
    else if candidates == {} then order == []
    else |order| == 1 && TopRanked(candidates, input.name, catalog) == {order[0]}
  }

  /** Whichever providers the expression's variables can stand for are exactly the chosen ones. */
  ghost predicate Receives(catalog: seq<Provider>, variables: map<string, string>, input: Dependency, e: Expr) {
    && (exists order :: Carries(catalog, variables, e, order))
    && (forall order :: Carries(catalog, variables, e, order) ==> Chosen(catalog, input, order))
  }

  lemma OneReading(catalog: seq<Provider>, variables: map<string, string>, e: Expr, a: seq<nat>, b: seq<nat>)
    requires Separate(catalog, variables) && Carries(catalog, variables, e, a) && Carries(catalog, variables, e, b)
    ensures a == b
  {
    hide VariableOf;
    var names := Names(e);
    assert |a| == |names| == |b|;
    forall i | 0 <= i < |a| ensures a[i] == b[i] {
      assert VariableOf(catalog, variables, a[i]) == names[i] == VariableOf(catalog, variables, b[i]);
    }
  }

  lemma PassedAreChosen(catalog: seq<Provider>, variables: map<string, string>, input: Dependency, e: Expr)
      returns (order: seq<nat>)
    requires Passes(catalog, variables, input, e)
    ensures Carries(catalog, variables, e, order) && Chosen(catalog, input, order)
  {
    hide VariableOf, Candidates, EffectiveKind, TopRanked, SortedBy, CollectionBefore;
    var kind, candidates := EffectiveKind(catalog, input), Candidates(catalog, input);
    if Collects(kind) {
      order :| PassesAll(catalog, variables, kind, candidates, order, e);
      forall i | 0 <= i < |order| ensures order[i] < |catalog| { assert order[i] in order; }
    } else if candidates == {} {
      order := [];
    } else {
      var p: nat :| TopRanked(candidates, input.name, catalog) == {p} && PassesOne(catalog, variables, kind, p, e);
      order := [p];
    }
  }

  /** When variables tell providers apart, an argument determines its providers, and they are the chosen ones. */
  lemma ArgumentDeterminesProviders(catalog: seq<Provider>, variables: map<string, string>, input: Dependency, e: Expr)
    requires Separate(catalog, variables) && Passes(catalog, variables, input, e)
    ensures Receives(catalog, variables, input, e)
  {
    var chosen := PassedAreChosen(catalog, variables, input, e);
    hide Carries, Chosen, Separate, Passes;
    forall order | Carries(catalog, variables, e, order) ensures Chosen(catalog, input, order) {
      OneReading(catalog, variables, e, order, chosen);
    }
  }
}
