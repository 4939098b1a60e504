/** Building the provider dependency graph (compiler/graph/build.go: Build). */
module DependencyGraph {
  import opened Catalog
  import opened Digraph
  import opened Sorting
  import opened SymbolLists
  import opened Selection
  import opened Tarjan
  import opened Wiring
  import TypeIndex

  // ----- Edges and adjacency ---------------------------------------------------------------------

  ghost predicate SoundEdge(providers: seq<Provider>, e: Edge) {
    && e.consumer < |providers| && e.dependency < |providers|
    && e.consumerID == providers[e.consumer].symbolID && e.dependencyID == providers[e.dependency].symbolID
  }

  ghost predicate SoundEdges(providers: seq<Provider>, edges: seq<Edge>) {
    forall i :: 0 <= i < |edges| ==> SoundEdge(providers, edges[i])
  }

  ghost function TargetsOf(edges: seq<Edge>, consumer: nat): seq<nat> {
    if edges == [] then [] else
    var rest := TargetsOf(edges[..|edges|-1], consumer);
    var last := edges[|edges|-1];
    if last.consumer == consumer then rest + [last.dependency] else rest
  }

  ghost function EdgesFor(edges: seq<Edge>, consumer: nat, parameter: nat): seq<Edge> {
    if edges == [] then [] else
    var rest := EdgesFor(edges[..|edges|-1], consumer, parameter);
    var last := edges[|edges|-1];
    if last.consumer == consumer && last.parameterIndex == parameter then rest + [last] else rest
  }

  ghost predicate Adjacent(edges: seq<Edge>, adjacency: seq<seq<nat>>) {
    forall v :: 0 <= v < |adjacency| ==> adjacency[v] == TargetsOf(edges, v)
  }

  lemma {:induction false} EdgesForConcat(a: seq<Edge>, b: seq<Edge>, consumer: nat, parameter: nat)
    ensures EdgesFor(a + b, consumer, parameter) == EdgesFor(a, consumer, parameter) + EdgesFor(b, consumer, parameter)
  {
    if b == [] {
      assert a + b == a;
    } else {
      assert (a + b)[..|a + b|-1] == a + b[..|b|-1];
      EdgesForConcat(a, b[..|b|-1], consumer, parameter);
    }
  }

  lemma {:induction false} EdgesForAll(b: seq<Edge>, consumer: nat, parameter: nat)
    requires forall i :: 0 <= i < |b| ==> b[i].consumer == consumer && b[i].parameterIndex == parameter
    ensures EdgesFor(b, consumer, parameter) == b
  {
    if b != [] {
      EdgesForAll(b[..|b|-1], consumer, parameter);
      assert b == b[..|b|-1] + [b[|b|-1]];
    }
  }

  lemma {:induction false} EdgesForNone(b: seq<Edge>, consumer: nat, parameter: nat)
    requires forall i :: 0 <= i < |b| ==> b[i].consumer != consumer || b[i].parameterIndex != parameter
    ensures EdgesFor(b, consumer, parameter) == []
  {
    if b != [] { EdgesForNone(b[..|b|-1], consumer, parameter); }
  }

  /** Which edges belong to an input does not depend on how the edge list is arranged. */
  lemma {:induction false} EdgesForMultiset(edges: seq<Edge>, consumer: nat, parameter: nat, e: Edge)
    ensures multiset(EdgesFor(edges, consumer, parameter))[e] ==
            if e.consumer == consumer && e.parameterIndex == parameter then multiset(edges)[e] else 0
  {
    if edges != [] {
      EdgesForMultiset(edges[..|edges|-1], consumer, parameter, e);
      assert edges == edges[..|edges|-1] + [edges[|edges|-1]];
    }
  }

  lemma EdgesForPermuted(a: seq<Edge>, b: seq<Edge>, consumer: nat, parameter: nat)
    requires multiset(a) == multiset(b)
    ensures multiset(EdgesFor(a, consumer, parameter)) == multiset(EdgesFor(b, consumer, parameter))
  {
    forall e ensures multiset(EdgesFor(a, consumer, parameter))[e] == multiset(EdgesFor(b, consumer, parameter))[e] {
      EdgesForMultiset(a, consumer, parameter, e);
      EdgesForMultiset(b, consumer, parameter, e);
    }
  }

  lemma {:induction false} TargetsAreDependencies(edges: seq<Edge>, consumer: nat, d: nat)
    ensures d in TargetsOf(edges, consumer)
            <==> exists i :: 0 <= i < |edges| && edges[i].consumer == consumer && edges[i].dependency == d
  {
    if edges != [] {
      var rest := edges[..|edges|-1];
      TargetsAreDependencies(rest, consumer, d);
      assert forall i :: 0 <= i < |rest| ==> rest[i] == edges[i];
      if i :| 0 <= i < |edges| && edges[i].consumer == consumer && edges[i].dependency == d {
        if i < |rest| { assert rest[i].consumer == consumer; }
      }
    }
  }

  // ----- The relation the graph reports on -------------------------------------------------------

  /** The dependency relation on identifiers: (consumer, dependency). */
  ghost function DependsOn(edges: seq<Edge>): set<(string, string)> {
    set i | 0 <= i < |edges| :: (edges[i].consumerID, edges[i].dependencyID)
  }

  // ----- Collection candidates -------------------------------------------------------------------

  method OrderedCollectionCandidates(candidates: seq<nat>, providers: seq<Provider>) returns (order: seq<nat>)
    requires Ascending(candidates, SymbolIDs(providers)) && InRange(candidates, |providers|)
    ensures InCollectionOrder(providers, ElementsOf(candidates), order)
  {
    CollectionOrderIsStrictWeak(providers);
    order := StableSort(candidates, CollectionBefore(providers));
    StableSortSorted(candidates, CollectionBefore(providers));
    SameElements(order, candidates);
    AscendingHasNoDuplicates(candidates, SymbolIDs(providers));
    NoDuplicatesPermuted(order, candidates);
  }

  /** The first bean name met a second time, or the empty string. */
  method DuplicateCandidateName(candidates: seq<nat>, providers: seq<Provider>) returns (name: string)
    requires NoDuplicates(candidates) && InRange(candidates, |providers|)
    requires forall v :: 0 <= v < |providers| ==> providers[v].name != ""
    ensures name != "" ==> FirstRepeatedName(providers, candidates, name)
    ensures name != "" <==> exists n :: NamesClash(providers, ElementsOf(candidates), n)
  {
    var seen: set<string> := {};
    for i := 0 to |candidates|
      invariant forall n :: n in seen <==> exists k :: 0 <= k < i && NameAt(providers, candidates[k]) == n
      invariant forall k :: 0 <= k < i ==> !RepeatsAt(providers, candidates, k)
    {
      assert candidates[i] in candidates;
      name := providers[candidates[i]].name;
      if name in seen {
        RepeatClashes(providers, candidates, i);
        return;
      }
      seen := seen + {name};
    }
    name := "";
    NoRepeatNoClash(providers, candidates);
  }

  lemma RepeatClashes(providers: seq<Provider>, order: seq<nat>, i: nat)
    requires NoDuplicates(order) && RepeatsAt(providers, order, i)
    ensures NamesClash(providers, ElementsOf(order), NameAt(providers, order[i]))
  {
    var k :| 0 <= k < i && NameAt(providers, order[k]) == NameAt(providers, order[i]);
    assert order[k] in ElementsOf(order) && order[i] in ElementsOf(order) && order[k] != order[i];
  }

  lemma NoRepeatNoClash(providers: seq<Provider>, order: seq<nat>)
    requires forall k :: 0 <= k < |order| ==> !RepeatsAt(providers, order, k)
    ensures forall n :: !NamesClash(providers, ElementsOf(order), n)
  {
    forall v, w | v in ElementsOf(order) && w in ElementsOf(order) && v != w
      ensures NameAt(providers, v) != NameAt(providers, w)
    {
      var j :| 0 <= j < |order| && order[j] == v;
      var k :| 0 <= k < |order| && order[k] == w;
      assert !RepeatsAt(providers, order, if j < k then k else j);
    }
  }

  /** The first candidate that is not a singleton, or -1. */
  method FirstScopedCandidate(candidates: seq<nat>, providers: seq<Provider>) returns (found: int)
    requires InRange(candidates, |providers|)
    ensures found >= 0 ==> FirstScoped(providers, candidates, found)
    ensures found < 0 ==> forall v :: v in ElementsOf(candidates) ==> !Scoped(providers, v)
  {
    for i := 0 to |candidates|
      invariant forall k :: 0 <= k < i ==> !Scoped(providers, candidates[k])
    {
      assert candidates[i] in candidates;
      if providers[candidates[i]].scope != Singleton { return candidates[i]; }
    }
    found := -1;
  }

  // ----- Connecting inputs -----------------------------------------------------------------------

  /** State while inputs are connected. */
  class GraphBuilder {
    const providers: seq<Provider>
    const index: map<string, seq<nat>>
    var edges: seq<Edge>
    var adjacency: seq<seq<nat>>
    var diagnostics: seq<Diagnostic>

    ghost predicate Valid()
      reads this
    {
      && CatalogReady(providers)
      && (forall k: string, i: nat :: TypeIndex.Listed(index, k, i) <==> TypeIndex.Keyed(providers, k, i))
      && |adjacency| == |providers| && SoundEdges(providers, edges) && Adjacent(edges, adjacency)
    }

    constructor (providers: seq<Provider>, index: map<string, seq<nat>>)
      requires CatalogReady(providers)
      requires forall k: string, i: nat :: TypeIndex.Listed(index, k, i) <==> TypeIndex.Keyed(providers, k, i)
      ensures Valid() && this.providers == providers && edges == [] && diagnostics == []
    {
      this.providers, this.index := providers, index;
      edges, diagnostics := [], [];
      adjacency := seq(|providers|, _ => []);
    }

    method AppendEdge(consumer: nat, dependency: nat, input: Dependency, kind: DependencyKind, position: nat)
      requires Valid() && consumer < |providers| && dependency < |providers|
      modifies this`edges, this`adjacency
      ensures Valid() && edges == old(edges) + [EdgeTo(providers, consumer, dependency, input, kind, position)]
    {
      var e := EdgeTo(providers, consumer, dependency, input, kind, position);
      assert (edges + [e])[..|edges|] == edges;
      edges := edges + [e];
      adjacency := adjacency[consumer := adjacency[consumer] + [dependency]];
    }

    method ConnectSingle(consumer: nat, input: Dependency, kind: DependencyKind, candidates: seq<nat>)
      requires Valid() && consumer < |providers|
      requires Ascending(candidates, SymbolIDs(providers)) && InRange(candidates, |providers|)
      modifies this
      ensures Valid() && old(edges) <= edges && old(diagnostics) <= diagnostics
      ensures SingleOutcome(providers, consumer, input, kind, ElementsOf(candidates),
                            edges[|old(edges)|..], diagnostics[|old(diagnostics)|..])
    {
      hide Ascending, TopRanked, SortedBy;
      var id := providers[consumer].symbolID;
      if |candidates| == 0 {
        assert ElementsOf(candidates) == {};
        if input.kind != KindOptional { diagnostics := diagnostics + [MissingDependency(id, input.index)]; }
        return;
      }
      assert candidates[0] in ElementsOf(candidates);
      ghost var top := TopRanked(ElementsOf(candidates), input.name, providers);
      var selected := SelectedCandidates(candidates, input.name, providers);
      TopRankedInRange(ElementsOf(candidates), input.name, providers);
      SingletonListing(selected, top, SymbolIDs(providers));
      if |selected| != 1 {
        var labels := seq(|selected|, i requires 0 <= i < |selected| => Symbol(SymbolIDs(providers), selected[i]));
        LabelsOf(labels, selected, top, SymbolIDs(providers));
        diagnostics := diagnostics + [AmbiguousDependency(id, input.index, labels)];
        return;
      }
      var dependency := selected[0];
      assert top == {dependency} && dependency in top;
      if providers[dependency].scope != Singleton && input.kind != KindProvider {
        diagnostics := diagnostics + [ScopeMismatch(id, input.index, providers[dependency].symbolID)];
        return;
      }
      AppendEdge(consumer, dependency, input, kind, 0);
    }

    method ConnectCollection(consumer: nat, input: Dependency, kind: DependencyKind, candidates: seq<nat>)
      requires Valid() && consumer < |providers|
      requires Ascending(candidates, SymbolIDs(providers)) && InRange(candidates, |providers|)
      modifies this
      ensures Valid() && old(edges) <= edges && old(diagnostics) <= diagnostics
      ensures CollectionOutcome(providers, consumer, input, kind, ElementsOf(candidates),
                                edges[|old(edges)|..], diagnostics[|old(diagnostics)|..])
    {
      hide Ascending, SortedBy, InCollectionOrder, NamesClash, Scoped, FirstRepeatedName, FirstScoped;
      var id := providers[consumer].symbolID;
      ghost var members := ElementsOf(candidates);
      var order := OrderedCollectionCandidates(candidates, providers);
      CollectionOrderFacts(providers, members, order);
      if kind == KindMap {
        var name := DuplicateCandidateName(order, providers);
        if name != "" {
          diagnostics := diagnostics + [DuplicateCollectionName(id, input.index, name)];
          return;
        }
      }
      var scoped := FirstScopedCandidate(order, providers);
      if scoped >= 0 {
        FirstScopedFacts(providers, order, scoped);
        assert scoped in candidates;
        diagnostics := diagnostics + [ScopeMismatch(id, input.index, providers[scoped].symbolID)];
        return;
      }
      for position := 0 to |order|
        invariant Valid() && old(edges) <= edges && diagnostics == old(diagnostics)
        invariant |edges| == |old(edges)| + position
        invariant forall k :: 0 <= k < position ==>
                    order[k] in order
                    && edges[|old(edges)| + k] == EdgeTo(providers, consumer, order[k], input, kind, k)
      {
        assert order[position] in order;
        AppendEdge(consumer, order[position], input, kind, position);
      }
      assert EdgesInOrder(providers, consumer, input, kind, order, edges[|old(edges)|..]);
    }

    method DependencyCandidates(input: Dependency) returns (kind: DependencyKind, candidates: seq<nat>)
      requires Valid()
      ensures kind == EffectiveKind(providers, input)
      ensures Ascending(candidates, SymbolIDs(providers)) && InRange(candidates, |providers|)
      ensures ElementsOf(candidates) == Candidates(providers, input)
    {
      hide Ascending;
      kind := input.kind;
      candidates := [];
      if Collects(kind) {
        candidates := TypeIndex.Lookup(index, input.typ, providers);
        assert ElementsOf(candidates) == Matching(providers, input.typ);
        if |candidates| != 0 {
          assert candidates[0] in ElementsOf(candidates);
          kind := KindSingle;
        }
      }
      if |candidates| == 0 {
        assert ElementsOf(candidates) == {};
        candidates := TypeIndex.Lookup(index, input.MatchType(), providers);
        assert ElementsOf(candidates) == Matching(providers, input.MatchType());
      }
      candidates := FilterQualified(candidates, input.qualifiers, providers);
    }

    method ConnectDependency(consumer: nat, input: Dependency)
      requires Valid() && consumer < |providers|
      modifies this
      ensures Valid() && old(edges) <= edges && old(diagnostics) <= diagnostics
      ensures InputOutcome(providers, consumer, input, edges[|old(edges)|..], diagnostics[|old(diagnostics)|..])
    {
      hide Ascending, SingleOutcome, CollectionOutcome;
      var kind, candidates := DependencyCandidates(input);
      if kind == KindSlice || kind == KindMap {
        ConnectCollection(consumer, input, kind, candidates);
      } else {
        ConnectSingle(consumer, input, kind, candidates);
      }
    }

    /** Wires every input of every provider. */
    method ConnectDependencies()
      requires Valid() && edges == [] && diagnostics == []
      modifies this
      ensures Valid() && Connected(providers, edges, diagnostics, |providers|, 0)
    {
      hide InputOutcome, Connected, SoundEdges, Adjacent;
      NothingConnected(providers);
      for consumer := 0 to |providers|
        invariant Valid() && Connected(providers, edges, diagnostics, consumer, 0)
      {
        for k := 0 to |providers[consumer].dependencies|
          invariant Valid() && Connected(providers, edges, diagnostics, consumer, k)
        {
          ghost var edges0, diagnostics0 := edges, diagnostics;
          ConnectDependency(consumer, providers[consumer].dependencies[k]);
          ConnectedOneMore(providers, edges0, diagnostics0, edges[|edges0|..], diagnostics[|diagnostics0|..], consumer,
                           k);
          assert edges == edges0 + edges[|edges0|..] && diagnostics == diagnostics0 + diagnostics[|diagnostics0|..];
        }
        ConnectedNextConsumer(providers, edges, diagnostics, consumer);
      }
    }
  }

  // ----- Progress over all inputs ----------------------------------------------------------------

  ghost predicate IsInput(providers: seq<Provider>, c: nat, k: nat) {
    c < |providers| && k < |providers[c].dependencies|
  }

  /** The input cannot be resolved. */
  ghost predicate Rejected(providers: seq<Provider>, c: nat, k: nat) {
    IsInput(providers, c, k) && exists d :: InputOutcome(providers, c, providers[c].dependencies[k], [], [d])
  }

  ghost predicate SomeRejected(providers: seq<Provider>) { exists c, k :: Rejected(providers, c, k) }

  /** The wiring diagnostics about one input. */
  ghost function DiagnosticsFor(diagnostics: seq<Diagnostic>, id: string, parameter: nat): seq<Diagnostic> {
    if diagnostics == [] then [] else
    var rest := DiagnosticsFor(diagnostics[..|diagnostics|-1], id, parameter);
    var last := diagnostics[|diagnostics|-1];
    if IsAbout(last, id, parameter) then rest + [last] else rest
  }

  predicate IsAbout(d: Diagnostic, id: string, parameter: nat) {
    !d.CycleFound? && d.providerID == id && d.parameter == parameter
  }

  /** The input has exactly the edges and the diagnostics the wiring rules give it. */
  ghost predicate Treated(providers: seq<Provider>, edges: seq<Edge>, diagnostics: seq<Diagnostic>, c: nat, k: nat) {
    && IsInput(providers, c, k)
    && InputOutcome(providers, c, providers[c].dependencies[k], EdgesFor(edges, c, k),
                    DiagnosticsFor(diagnostics, providers[c].symbolID, k))
  }

  predicate Before(c: nat, k: nat, c0: nat, k0: nat) { c < c0 || (c == c0 && k < k0) }

  /** The diagnostic is about some input before (c0, k0). */
  ghost predicate AboutInput(providers: seq<Provider>, d: Diagnostic, c0: nat, k0: nat) {
    exists c: nat, k: nat :: IsInput(providers, c, k) && Before(c, k, c0, k0) && IsAbout(d, providers[c].symbolID, k)
  }

  /** Inputs before (c0, k0), in catalog order, have been treated, and nothing else has left an edge or a diagnostic. */
  ghost predicate Connected(providers: seq<Provider>, edges: seq<Edge>, diagnostics: seq<Diagnostic>, c0: nat,
                            k0: nat) {
    && (forall c: nat, k: nat :: IsInput(providers, c, k) && Before(c, k, c0, k0) ==>
          Treated(providers, edges, diagnostics, c, k))
    && (forall c: nat, k: nat :: !IsInput(providers, c, k) || !Before(c, k, c0, k0) ==> EdgesFor(edges, c, k) == [])
    && (forall d :: d in diagnostics ==> AboutInput(providers, d, c0, k0))
  }

  lemma NothingConnected(providers: seq<Provider>)
    ensures Connected(providers, [], [], 0, 0)
  {
  }

  lemma ConnectedNextConsumer(providers: seq<Provider>, edges: seq<Edge>, diagnostics: seq<Diagnostic>, c: nat)
    requires c < |providers| && Connected(providers, edges, diagnostics, c, |providers[c].dependencies|)
    ensures Connected(providers, edges, diagnostics, c + 1, 0)
  {
    hide InputOutcome, EdgesFor;
    var n := |providers[c].dependencies|;
    forall c': nat, k': nat | IsInput(providers, c', k')
      ensures Before(c', k', c, n) <==> Before(c', k', c + 1, 0)
    {
    }
    forall d | d in diagnostics ensures AboutInput(providers, d, c + 1, 0) {
      var c': nat, k': nat :| IsInput(providers, c', k') && Before(c', k', c, n)
                              && IsAbout(d, providers[c'].symbolID, k');
      assert Before(c', k', c + 1, 0);
    }
  }

  lemma {:induction false} DiagnosticsForConcat(a: seq<Diagnostic>, b: seq<Diagnostic>, id: string, parameter: nat)
    ensures DiagnosticsFor(a + b, id, parameter) == DiagnosticsFor(a, id, parameter) + DiagnosticsFor(b, id, parameter)
  {
    if b == [] {
      assert a + b == a;
    } else {
      assert (a + b)[..|a + b|-1] == a + b[..|b|-1];
      DiagnosticsForConcat(a, b[..|b|-1], id, parameter);
    }
  }

  lemma {:induction false} DiagnosticsForNone(b: seq<Diagnostic>, id: string, parameter: nat)
    requires forall i :: 0 <= i < |b| ==> !IsAbout(b[i], id, parameter)
    ensures DiagnosticsFor(b, id, parameter) == []
  {
    if b != [] { DiagnosticsForNone(b[..|b|-1], id, parameter); }
  }

  /** Which diagnostics are about an input does not depend on how the list is arranged. */
  lemma {:induction false} DiagnosticsForMultiset(diagnostics: seq<Diagnostic>, id: string, parameter: nat,
                                                  d: Diagnostic)
    ensures multiset(DiagnosticsFor(diagnostics, id, parameter))[d]
            == if IsAbout(d, id, parameter) then multiset(diagnostics)[d] else 0
  {
    if diagnostics != [] {
      DiagnosticsForMultiset(diagnostics[..|diagnostics|-1], id, parameter, d);
      assert diagnostics == diagnostics[..|diagnostics|-1] + [diagnostics[|diagnostics|-1]];
    }
  }

  lemma OutcomeEdges(providers: seq<Provider>, consumer: nat, input: Dependency, edges: seq<Edge>,
                     diagnostics: seq<Diagnostic>)
    requires consumer < |providers| && InputOutcome(providers, consumer, input, edges, diagnostics)
    ensures forall i :: 0 <= i < |edges| ==> edges[i].consumer == consumer && edges[i].parameterIndex == input.index
    ensures |diagnostics| <= 1
    ensures forall i :: 0 <= i < |diagnostics| ==> IsAbout(diagnostics[i], providers[consumer].symbolID, input.index)
  {
    hide TopRanked, InCollectionOrder, NamesClash, Scoped;
  }

  lemma EdgesForStep(edges: seq<Edge>, es: seq<Edge>, c: nat, k: nat)
    requires forall i :: 0 <= i < |es| ==> es[i].consumer == c && es[i].parameterIndex == k
    requires EdgesFor(edges, c, k) == []
    ensures EdgesFor(edges + es, c, k) == es
    ensures forall c': nat, k': nat :: c' != c || k' != k ==> EdgesFor(edges + es, c', k') == EdgesFor(edges, c', k')
  {
    EdgesForConcat(edges, es, c, k);
    EdgesForAll(es, c, k);
    forall c': nat, k': nat | c' != c || k' != k ensures EdgesFor(edges + es, c', k') == EdgesFor(edges, c', k') {
      EdgesForConcat(edges, es, c', k');
      EdgesForNone(es, c', k');
    }
  }

  lemma DiagnosticsStep(providers: seq<Provider>, diagnostics: seq<Diagnostic>, ds: seq<Diagnostic>, c: nat, k: nat)
    requires NoDuplicates(SymbolIDs(providers)) && IsInput(providers, c, k) && |ds| <= 1
    requires forall i :: 0 <= i < |ds| ==> IsAbout(ds[i], providers[c].symbolID, k)
    requires forall d :: d in diagnostics ==> AboutInput(providers, d, c, k)
    ensures DiagnosticsFor(diagnostics + ds, providers[c].symbolID, k) == ds
    ensures forall c': nat, k': nat :: IsInput(providers, c', k') && (c' != c || k' != k) ==>
              DiagnosticsFor(diagnostics + ds, providers[c'].symbolID, k')
              == DiagnosticsFor(diagnostics, providers[c'].symbolID, k')
  {
    var ids := SymbolIDs(providers);
    forall i | 0 <= i < |diagnostics| ensures !IsAbout(diagnostics[i], providers[c].symbolID, k) {
      assert diagnostics[i] in diagnostics;
      var c': nat, k': nat :| IsInput(providers, c', k') && Before(c', k', c, k)
                              && IsAbout(diagnostics[i], providers[c'].symbolID, k');
      if c' != c { assert ids[c'] != ids[c]; }
    }
    DiagnosticsForConcat(diagnostics, ds, providers[c].symbolID, k);
    DiagnosticsForNone(diagnostics, providers[c].symbolID, k);
    if ds != [] { assert ds[..0] == [] && ds == [ds[0]]; }
    forall c': nat, k': nat | IsInput(providers, c', k') && (c' != c || k' != k)
      ensures DiagnosticsFor(diagnostics + ds, providers[c'].symbolID, k')
              == DiagnosticsFor(diagnostics, providers[c'].symbolID, k')
    {
      DiagnosticsForConcat(diagnostics, ds, providers[c'].symbolID, k');
      if c' != c { assert ids[c'] != ids[c]; }
      DiagnosticsForNone(ds, providers[c'].symbolID, k');
    }
  }

  /** One input more is treated, and what was recorded for the others stays. */
  lemma ConnectedOneMore(providers: seq<Provider>, edges: seq<Edge>, diagnostics: seq<Diagnostic>,
                         es: seq<Edge>, ds: seq<Diagnostic>, c: nat, k: nat)
    requires CatalogReady(providers) && IsInput(providers, c, k) && Connected(providers, edges, diagnostics, c, k)
    requires InputOutcome(providers, c, providers[c].dependencies[k], es, ds)
    ensures Connected(providers, edges + es, diagnostics + ds, c, k + 1)
  {
    hide InputOutcome, EdgesFor, DiagnosticsFor;
    var input := providers[c].dependencies[k];
    assert input.index == k;
    OutcomeEdges(providers, c, input, es, ds);
    EdgesForStep(edges, es, c, k);
    DiagnosticsStep(providers, diagnostics, ds, c, k);
    forall c': nat, k': nat | IsInput(providers, c', k') && Before(c', k', c, k + 1)
      ensures Treated(providers, edges + es, diagnostics + ds, c', k')
    {
      if c' != c || k' != k { assert Before(c', k', c, k) && Treated(providers, edges, diagnostics, c', k'); }
    }
    forall d | d in diagnostics + ds ensures AboutInput(providers, d, c, k + 1) {
      if d in diagnostics {
        var c': nat, k': nat :| IsInput(providers, c', k') && Before(c', k', c, k)
                                && IsAbout(d, providers[c'].symbolID, k');
        assert Before(c', k', c, k + 1);
      } else {
        assert Before(c, k, c, k + 1);
      }
    }
  }

  lemma CollectionOrderFacts(providers: seq<Provider>, members: set<nat>, order: seq<nat>)
    requires InCollectionOrder(providers, members, order)
    ensures NoDuplicates(order) && InRange(order, |providers|) && ElementsOf(order) == members
  {
  }

  lemma FirstScopedFacts(providers: seq<Provider>, order: seq<nat>, v: nat)
    requires FirstScoped(providers, order, v)
    ensures v in order && Scoped(providers, v)
  {
  }

  lemma TopRankedInRange(candidates: set<nat>, name: string, providers: seq<Provider>)
    ensures TopRanked(candidates, name, providers) <= candidates
  {
  }

  lemma SingletonListing(list: seq<nat>, s: set<nat>, ids: seq<string>)
    requires Lists(list, s, ids)
    ensures |list| == 1 ==> s == {list[0]}
    ensures |list| != 1 ==> forall p :: s != {p}
  {
    AscendingHasNoDuplicates(list, ids);
    if |list| == 1 { assert list[0] in s; }
    if |list| != 1 {
      forall p ensures s != {p} {
        if |list| == 0 { assert p !in list; } else { assert list[0] in s && list[1] in s && list[0] != list[1]; }
      }
    }
  }

  lemma LabelsOf(labels: seq<string>, list: seq<nat>, s: set<nat>, ids: seq<string>)
    requires Lists(list, s, ids) && |labels| == |list|
    requires forall i :: 0 <= i < |list| ==> labels[i] == Symbol(ids, list[i])
    ensures forall name :: name in labels <==> exists v :: v in s && Symbol(ids, v) == name
  {
    forall name ensures name in labels <==> exists v :: v in s && Symbol(ids, v) == name {
      if name in labels {
        var i :| 0 <= i < |labels| && labels[i] == name;
        assert list[i] in s;
      }
      if v :| v in s && Symbol(ids, v) == name {
        assert v in list;
        var i :| 0 <= i < |list| && list[i] == v;
        assert labels[i] == name;
      }
    }
  }
}
