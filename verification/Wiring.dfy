/** What it means for one constructor input to be wired (compiler/graph/build.go: connectSingle, connectCollection). */
module Wiring {
  import opened Catalog
  import opened Digraph
  import opened Sorting
  import opened SymbolLists
  import opened Selection
  import opened Tarjan
  import StringOrder
  import TypeIndex

  datatype Edge = Edge(
    consumer: nat,
    dependency: nat,
    consumerID: string,
    dependencyID: string,
    requiredTypeID: string,
    parameterIndex: nat,
    parameterName: string,
    kind: DependencyKind,
    collectionIndex: nat)

  datatype Diagnostic =
    | MissingDependency(providerID: string, parameter: nat)
    | AmbiguousDependency(providerID: string, parameter: nat, candidates: seq<string>)
    | DuplicateCollectionName(providerID: string, parameter: nat, name: string)
    | ScopeMismatch(providerID: string, parameter: nat, dependencyID: string)
    | CycleFound(providerID: string, path: seq<string>, members: seq<string>)

  /** A validated catalog: unique identifiers, normalized names, inputs numbered in order. */
  ghost predicate CatalogReady(providers: seq<Provider>) {
    && NoDuplicates(SymbolIDs(providers))
    && (forall v :: 0 <= v < |providers| ==> providers[v].name != "")
    && (forall v, k :: 0 <= v < |providers| && 0 <= k < |providers[v].dependencies| ==>
          providers[v].dependencies[k].index == k)
  }

  // ----- Candidates ------------------------------------------------------------------------------

  ghost function Matching(providers: seq<Provider>, t: Type): set<nat> {
    set v: nat | v < |providers| && TypeIndex.Selected(providers, t, v)
  }

  predicate Collects(kind: DependencyKind) { kind == KindSlice || kind == KindMap }

  /** A provider of the collection type itself takes precedence over collecting elements. */
  ghost predicate Direct(providers: seq<Provider>, input: Dependency) {
    Collects(input.kind) && Matching(providers, input.typ) != {}
  }

  ghost function EffectiveKind(providers: seq<Provider>, input: Dependency): DependencyKind {
    if Direct(providers, input) then KindSingle else input.kind
  }

  ghost function Candidates(providers: seq<Provider>, input: Dependency): set<nat> {
    set v | v in Matching(providers, if Direct(providers, input) then input.typ else input.MatchType())
            && QualifiedAt(providers, v, input.qualifiers)
  }

  // ----- Outcome of one input --------------------------------------------------------------------

  function RequiredTypeID(input: Dependency, kind: DependencyKind): string {
    if kind != KindSingle && input.element.Some? then TypeIndex.TypeID(input.element.value)
    else TypeIndex.TypeID(input.typ)
  }

  function EdgeTo(providers: seq<Provider>, consumer: nat, dependency: nat, input: Dependency, kind: DependencyKind,
                  position: nat): Edge
    requires consumer < |providers| && dependency < |providers|
  {
    Edge(consumer, dependency, providers[consumer].symbolID, providers[dependency].symbolID,
         RequiredTypeID(input, kind), input.index, input.name, kind, position)
  }

  /**
   * One direct input. With a single top-ranked candidate that may be injected directly it gets exactly that
   * edge; an optional input without candidates gets none; everything else is one diagnostic.
   */
  ghost predicate SingleOutcome(providers: seq<Provider>, consumer: nat, input: Dependency, kind: DependencyKind,
                                candidates: set<nat>, edges: seq<Edge>, diagnostics: seq<Diagnostic>)
    requires consumer < |providers|
  {
    var id := providers[consumer].symbolID;
    var top := TopRanked(candidates, input.name, providers);
    if candidates == {} then
      edges == [] && diagnostics == (if input.kind == KindOptional then [] else [MissingDependency(id, input.index)])
    else if !exists p :: p < |providers| && top == {p} then
      && edges == [] && |diagnostics| == 1 && diagnostics[0].AmbiguousDependency? && diagnostics[0].providerID == id
      && diagnostics[0].parameter == input.index
      && forall name :: name in diagnostics[0].candidates
                        <==> exists v :: v in top && Symbol(SymbolIDs(providers), v) == name
    else
      var p :| p < |providers| && top == {p};
      if providers[p].scope != Singleton && input.kind != KindProvider then
        edges == [] && diagnostics == [ScopeMismatch(id, input.index, providers[p].symbolID)]
      else
        edges == [EdgeTo(providers, consumer, p, input, kind, 0)] && diagnostics == []
  }

  function NameAt(providers: seq<Provider>, v: nat): string { if v < |providers| then providers[v].name else "" }

  function OrderAt(providers: seq<Provider>, v: nat): int { if v < |providers| then providers[v].order else 0 }

  function ByOrder(providers: seq<Provider>): (nat, nat) -> bool {
    (a: nat, b: nat) => OrderAt(providers, a) < OrderAt(providers, b)
  }

  function ByName(providers: seq<Provider>): (nat, nat) -> bool {
    (a: nat, b: nat) => StringOrder.Less(NameAt(providers, a), NameAt(providers, b))
  }

  /** Collection order: declared order, then bean name, then symbol. */
  function CollectionBefore(providers: seq<Provider>): (nat, nat) -> bool {
    ThenBy<nat>(ByOrder(providers), ThenBy<nat>(ByName(providers), SymbolBefore(SymbolIDs(providers))))
  }

  lemma CollectionOrderIsStrictWeak(providers: seq<Provider>)
    ensures StrictWeakOrder(CollectionBefore(providers))
  {
    IntOrderIsStrictWeak(ByOrder(providers), v => OrderAt(providers, v));
    KeyedOrderIsStrictWeak(ByName(providers), v => NameAt(providers, v));
    SymbolOrdersAreStrictWeak(SymbolIDs(providers));
    hide StrictWeakOrder, SymbolBefore, ByOrder, ByName, ThenBy, FirstSymbolBefore;
    ThenByIsStrictWeak<nat>(ByName(providers), SymbolBefore(SymbolIDs(providers)));
    ThenByIsStrictWeak<nat>(ByOrder(providers), ThenBy<nat>(ByName(providers), SymbolBefore(SymbolIDs(providers))));
  }

  /** What collection order means: smaller declared order, on a tie smaller bean name, on a tie smaller symbol. */
  ghost predicate ComesFirst(p: Provider, q: Provider) {
    || p.order < q.order
    || (p.order == q.order && StringOrder.SpelledBefore(p.name, q.name))
    || (p.order == q.order && p.name == q.name && StringOrder.SpelledBefore(p.symbolID, q.symbolID))
  }

  lemma CollectionOrderMeans(providers: seq<Provider>, members: set<nat>, order: seq<nat>, i: nat, j: nat)
    requires NoDuplicates(SymbolIDs(providers)) && InCollectionOrder(providers, members, order) && i < j < |order|
    ensures order[i] < |providers| && order[j] < |providers|
    ensures ComesFirst(providers[order[i]], providers[order[j]])
  {
    hide StringOrder.SpelledBefore, StringOrder.Less;
    assert order[i] in order && order[j] in order;
    var p, q, ids := providers[order[i]], providers[order[j]], SymbolIDs(providers);
    assert !CollectionBefore(providers)(order[j], order[i]);
    StringOrder.LessTotal(p.name, q.name);
    StringOrder.LessTotal(p.symbolID, q.symbolID);
    StringOrder.LessIffSpelledBefore(p.name, q.name);
    StringOrder.LessIffSpelledBefore(p.symbolID, q.symbolID);
    assert ids[order[i]] != ids[order[j]];
  }

  /** The edges of a collection are numbered from zero, and their providers ascend. */
  lemma CollectionEdgesAscend(providers: seq<Provider>, consumer: nat, input: Dependency, kind: DependencyKind,
                              candidates: set<nat>, edges: seq<Edge>)
    requires NoDuplicates(SymbolIDs(providers)) && consumer < |providers|
    requires CollectionOutcome(providers, consumer, input, kind, candidates, edges, [])
    ensures forall i :: 0 <= i < |edges| ==> edges[i].dependency < |providers| && edges[i].collectionIndex == i
    ensures forall i, j :: 0 <= i < j < |edges| ==>
              ComesFirst(providers[edges[i].dependency], providers[edges[j].dependency])
  {
    hide ComesFirst, InCollectionOrder, NamesClash, Scoped;
    var order :| InCollectionOrder(providers, candidates, order)
                 && EdgesInOrder(providers, consumer, input, kind, order, edges);
    forall i, j | 0 <= i < j < |edges|
      ensures ComesFirst(providers[edges[i].dependency], providers[edges[j].dependency])
    {
      CollectionOrderMeans(providers, candidates, order, i, j);
    }
  }

  /** Each member of a set once, in collection order. */
  ghost predicate InCollectionOrder(providers: seq<Provider>, members: set<nat>, order: seq<nat>) {
    && NoDuplicates(order) && (forall v :: v in order <==> v in members) && InRange(order, |providers|)
    && SortedBy(order, CollectionBefore(providers))
  }

  ghost predicate NamesClash(providers: seq<Provider>, members: set<nat>, name: string) {
    exists v, w :: v in members && w in members && v != w && NameAt(providers, v) == NameAt(providers, w) == name
  }

  ghost predicate Scoped(providers: seq<Provider>, v: nat) { v < |providers| && providers[v].scope != Singleton }

  /** Reading the order from the front, the first name met a second time. */
  ghost predicate FirstRepeatedName(providers: seq<Provider>, order: seq<nat>, name: string) {
    exists j :: 0 <= j < |order| && RepeatsAt(providers, order, j) && NameAt(providers, order[j]) == name
                && forall k :: 0 <= k < j ==> !RepeatsAt(providers, order, k)
  }

  ghost predicate RepeatsAt(providers: seq<Provider>, order: seq<nat>, j: nat) {
    j < |order| && exists i :: 0 <= i < j && NameAt(providers, order[i]) == NameAt(providers, order[j])
  }

  ghost predicate FirstScoped(providers: seq<Provider>, order: seq<nat>, v: nat) {
    exists j :: 0 <= j < |order| && order[j] == v && Scoped(providers, v) && forall k :: 0 <= k < j ==>
                  !Scoped(providers, order[k])
  }

  /**
   * A collection input: every candidate in order, unless names clash in a map or a candidate is scoped. The
   * diagnostic then names the first repeated name, or the first scoped candidate, of the collection order.
   */
  ghost predicate CollectionOutcome(providers: seq<Provider>, consumer: nat, input: Dependency, kind: DependencyKind,
                                    candidates: set<nat>, edges: seq<Edge>, diagnostics: seq<Diagnostic>)
    requires consumer < |providers|
  {
    var id := providers[consumer].symbolID;
    if kind == KindMap && exists name :: NamesClash(providers, candidates, name) then
      && edges == [] && |diagnostics| == 1 && diagnostics[0].DuplicateCollectionName?
      && diagnostics[0].providerID == id && diagnostics[0].parameter == input.index
      && exists order :: InCollectionOrder(providers, candidates, order)
                         && FirstRepeatedName(providers, order, diagnostics[0].name)
    else if exists v :: v in candidates && Scoped(providers, v) then
      && edges == [] && |diagnostics| == 1 && diagnostics[0].ScopeMismatch?
      && diagnostics[0].providerID == id && diagnostics[0].parameter == input.index
      && exists order, v: nat :: InCollectionOrder(providers, candidates, order) && FirstScoped(providers, order, v)
                                 && diagnostics[0].dependencyID == Symbol(SymbolIDs(providers), v)
    else
      && diagnostics == []
      && exists order :: InCollectionOrder(providers, candidates, order)
                         && EdgesInOrder(providers, consumer, input, kind, order, edges)
  }

  ghost predicate EdgesInOrder(providers: seq<Provider>, consumer: nat, input: Dependency, kind: DependencyKind,
                               order: seq<nat>, edges: seq<Edge>)
    requires consumer < |providers|
  {
    && |edges| == |order| && InRange(order, |providers|)
    && forall k :: 0 <= k < |order| ==>
         order[k] in order && edges[k] == EdgeTo(providers, consumer, order[k], input, kind, k)
  }

  ghost predicate InputOutcome(providers: seq<Provider>, consumer: nat, input: Dependency,
                               edges: seq<Edge>, diagnostics: seq<Diagnostic>)
    requires consumer < |providers|
  {
    var kind := EffectiveKind(providers, input);
    if Collects(kind) then
      CollectionOutcome(providers, consumer, input, kind, Candidates(providers, input), edges, diagnostics)
    else
      SingleOutcome(providers, consumer, input, kind, Candidates(providers, input), edges, diagnostics)
  }

  /**
   * An edge names its ends and its input, and the type asked for: a wrapper's element, unless a provider of a whole
   * collection was taken. What it leads to was found for that type and answers to every qualifier.
   */
  ghost predicate CarriesInput(providers: seq<Provider>, consumer: nat, input: Dependency, e: Edge)
    requires consumer < |providers|
  {
    var whole := input.kind in {KindSlice, KindMap} && exists v: nat ::
                   v < |providers| && TypeIndex.Selected(providers, input.typ, v);
    && e.consumer == consumer && e.consumerID == providers[consumer].symbolID
    && e.dependency < |providers| && e.dependencyID == providers[e.dependency].symbolID
    && e.parameterIndex == input.index && e.parameterName == input.name
    && e.kind == (if whole then KindSingle else input.kind)
    && e.requiredTypeID == TypeIndex.TypeID(if whole || input.kind == KindSingle || input.element.None?
                                            then input.typ else input.element.value)
    && TypeIndex.Selected(providers, if whole || input.element.None? then input.typ else input.element.value,
                          e.dependency)
    && forall q :: q in input.qualifiers ==> AnswersTo(providers[e.dependency], q)
  }

  lemma EdgesCarryTheInput(providers: seq<Provider>, consumer: nat, input: Dependency, edges: seq<Edge>,
                           diagnostics: seq<Diagnostic>)
    requires consumer < |providers| && InputOutcome(providers, consumer, input, edges, diagnostics)
    ensures forall i :: 0 <= i < |edges| ==> CarriesInput(providers, consumer, input, edges[i])
  {
    hide InputOutcome, CarriesInput, EdgeTo, Candidates;
    forall i | 0 <= i < |edges| ensures CarriesInput(providers, consumer, input, edges[i]) {
      var p, k := EdgeTarget(providers, consumer, input, edges, diagnostics, i);
      CandidateCarries(providers, consumer, input, p, k);
    }
  }

  lemma EdgeTarget(providers: seq<Provider>, consumer: nat, input: Dependency, edges: seq<Edge>,
                   diagnostics: seq<Diagnostic>, i: nat) returns (p: nat, position: nat)
    requires consumer < |providers| && InputOutcome(providers, consumer, input, edges, diagnostics) && i < |edges|
    ensures p < |providers| && p in Candidates(providers, input)
    ensures edges[i] == EdgeTo(providers, consumer, p, input, EffectiveKind(providers, input), position)
  {
    hide TypeIndex.Selected, NamesClash, FirstRepeatedName, CollectionBefore, SortedBy, EdgeTo, FirstScoped,
         QualifiedAt, Matching;
    var kind, candidates := EffectiveKind(providers, input), Candidates(providers, input);
    if Collects(kind) {
      var order :| InCollectionOrder(providers, candidates, order)
                   && EdgesInOrder(providers, consumer, input, kind, order, edges);
      p, position := order[i], i;
    } else {
      var top := TopRanked(candidates, input.name, providers);
      p :| p < |providers| && top == {p};
      assert p in top;
      position := 0;
    }
  }

  lemma CandidateCarries(providers: seq<Provider>, consumer: nat, input: Dependency, p: nat, position: nat)
    requires consumer < |providers| && p < |providers| && p in Candidates(providers, input)
    ensures CarriesInput(providers, consumer, input,
                         EdgeTo(providers, consumer, p, input, EffectiveKind(providers, input), position))
  {
    hide TypeIndex.Selected, TypeIndex.TypeID;
    WholeIsDirect(providers, input);
  }

  lemma WholeIsDirect(providers: seq<Provider>, input: Dependency)
    ensures Direct(providers, input) <==>
            input.kind in {KindSlice, KindMap}
            && exists v: nat :: v < |providers| && TypeIndex.Selected(providers, input.typ, v)
  {
    hide TypeIndex.Selected;
    if v: nat :| v < |providers| && TypeIndex.Selected(providers, input.typ, v) {
      assert v in Matching(providers, input.typ);
    }
  }

  /** An input never both resolves and fails. */
  lemma OutcomeIsDecided(providers: seq<Provider>, consumer: nat, input: Dependency,
                         edges: seq<Edge>, diagnostics: seq<Diagnostic>, edges': seq<Edge>,
                           diagnostics': seq<Diagnostic>)
    requires consumer < |providers|
    requires InputOutcome(providers, consumer, input, edges, diagnostics)
    requires InputOutcome(providers, consumer, input, edges', diagnostics')
    ensures diagnostics == [] <==> diagnostics' == []
    ensures |diagnostics| <= 1 && (diagnostics != [] ==> edges == [] && !diagnostics[0].CycleFound?)
  {
  }
}
