/** The graph reads a catalog as a set: numbering and listing order do not matter. */
module CatalogIndependence {
  import opened Catalog
  import opened Digraph
  import opened Selection
  import opened Wiring
  import opened DependencyGraph
  import opened GraphBuild
  import opened Sorting
  import ConstructionOrder
  import LeastOrder
  import TypeIndex

  ghost function Members(providers: seq<Provider>): set<Provider> { set p | p in providers }

  // ----- Wiring stated on provider records alone -------------------------------------------------

  /** Providers that lookup returns for a type. */
  ghost function Offers(catalog: set<Provider>, t: Type): set<Provider> {
    set p | p in catalog && TypeIndex.IdenticalAmong(p.Exposed(), t)
            && TypeIndex.KeyAmong(p.Exposed(), TypeIndex.SemanticKey(t))
  }

  ghost predicate ServedDirectly(catalog: set<Provider>, input: Dependency) {
    Collects(input.kind) && Offers(catalog, input.typ) != {}
  }

  ghost function Eligible(catalog: set<Provider>, input: Dependency): set<Provider> {
    set p | p in Offers(catalog, if ServedDirectly(catalog, input) then input.typ else input.MatchType())
            && Qualified(p, input.qualifiers)
  }

  ghost function Best(catalog: set<Provider>, input: Dependency): set<Provider> {
    set p | p in Eligible(catalog, input) && forall q :: q in Eligible(catalog, input) ==>
              Rank(q, input.name) <= Rank(p, input.name)
  }

  /** The providers an input depends on: all eligible ones for a collection, the best one otherwise. */
  ghost function Targets(catalog: set<Provider>, input: Dependency): set<Provider> {
    if Collects(input.kind) && !ServedDirectly(catalog, input) then Eligible(catalog, input) else Best(catalog, input)
  }

  /** The declared dependency relation of a catalog: every acceptable input on its targets. */
  ghost predicate Declared(catalog: set<Provider>, consumerID: string, dependencyID: string) {
    exists p, input, q :: p in catalog && input in p.dependencies && Acceptable(catalog, input)
                          && q in Targets(catalog, input) && p.symbolID == consumerID && q.symbolID == dependencyID
  }

  // ----- Indices and records agree ---------------------------------------------------------------

  lemma MatchingIsOffers(providers: seq<Provider>, t: Type)
    ensures forall v :: 0 <= v < |providers| ==>
              (v in Matching(providers, t) <==> providers[v] in Offers(Members(providers), t))
    ensures Matching(providers, t) == {} <==> Offers(Members(providers), t) == {}
  {
    forall v | 0 <= v < |providers|
      ensures v in Matching(providers, t) <==> providers[v] in Offers(Members(providers), t)
    {
      assert providers[v] in Members(providers);
    }
    if p :| p in Offers(Members(providers), t) {
      var v :| 0 <= v < |providers| && providers[v] == p;
      assert v in Matching(providers, t);
    }
    if v :| v in Matching(providers, t) { assert providers[v] in Offers(Members(providers), t); }
  }

  lemma CandidatesAreEligible(providers: seq<Provider>, input: Dependency)
    ensures forall v :: 0 <= v < |providers| ==>
              (v in Candidates(providers, input) <==> providers[v] in Eligible(Members(providers), input))
    ensures Direct(providers, input) <==> ServedDirectly(Members(providers), input)
  {
    hide TypeIndex.Selected, Matching, Offers, Qualified;
    MatchingIsOffers(providers, input.typ);
    MatchingIsOffers(providers, input.MatchType());
    assert Direct(providers, input) <==> ServedDirectly(Members(providers), input);
    forall v | 0 <= v < |providers|
      ensures QualifiedAt(providers, v, input.qualifiers) <==> Qualified(providers[v], input.qualifiers)
    {
    }
  }

  lemma TopIsBest(providers: seq<Provider>, input: Dependency, v: nat)
    requires v < |providers|
    ensures v in TopRanked(Candidates(providers, input), input.name, providers)
            <==> providers[v] in Best(Members(providers), input)
  {
    CandidatesAreEligible(providers, input);
    hide Candidates, Eligible, Rank;
    var c := Candidates(providers, input);
    if providers[v] in Best(Members(providers), input) {
      forall w | w in c ensures RankOf(providers, input.name, w) <= RankOf(providers, input.name, v) {
        if w < |providers| { assert providers[w] in Eligible(Members(providers), input); }
      }
    }
    if v in TopRanked(c, input.name, providers) {
      forall q | q in Eligible(Members(providers), input)
        ensures Rank(q, input.name) <= Rank(providers[v], input.name)
      {
        EligibleIsMember(providers, input, q);
        var w :| 0 <= w < |providers| && providers[w] == q;
        assert w in c;
      }
    }
  }

  lemma EligibleIsMember(providers: seq<Provider>, input: Dependency, q: Provider)
    requires q in Eligible(Members(providers), input)
    ensures q in providers
  {
  }

  ghost predicate EdgeToID(edges: seq<Edge>, id: string) { exists i :: 0 <= i < |edges| && edges[i].dependencyID == id }

  ghost predicate HasID(s: set<Provider>, id: string) { exists q :: q in s && q.symbolID == id }

  lemma CandidateIDs(providers: seq<Provider>, input: Dependency, id: string)
    ensures HasID(Eligible(Members(providers), input), id) <==>
            exists v :: 0 <= v < |providers| && v in Candidates(providers, input) && providers[v].symbolID == id
  {
    CandidatesAreEligible(providers, input);
    hide Candidates, Eligible;
    if HasID(Eligible(Members(providers), input), id) {
      var q :| q in Eligible(Members(providers), input) && q.symbolID == id;
      EligibleIsMember(providers, input, q);
      var v :| 0 <= v < |providers| && providers[v] == q;
      assert v in Candidates(providers, input);
    }
  }

  lemma TopIDs(providers: seq<Provider>, input: Dependency, id: string)
    ensures HasID(Best(Members(providers), input), id) <==>
            exists v :: 0 <= v < |providers| && v in TopRanked(Candidates(providers, input), input.name, providers)
                        && providers[v].symbolID == id
  {
    hide Candidates, Eligible, TopRanked;
    forall v | 0 <= v < |providers|
      ensures v in TopRanked(Candidates(providers, input), input.name, providers)
              <==> providers[v] in Best(Members(providers), input)
    {
      TopIsBest(providers, input, v);
    }
    if HasID(Best(Members(providers), input), id) {
      var q :| q in Best(Members(providers), input) && q.symbolID == id;
      EligibleIsMember(providers, input, q);
      var v :| 0 <= v < |providers| && providers[v] == q;
      assert v in TopRanked(Candidates(providers, input), input.name, providers);
    }
  }

  lemma CollectionTargets(providers: seq<Provider>, c: nat, input: Dependency, kind: DependencyKind, es: seq<Edge>,
                          id: string)
    requires c < |providers| && CollectionOutcome(providers, c, input, kind, Candidates(providers, input), es, [])
    ensures EdgeToID(es, id) <==> HasID(Eligible(Members(providers), input), id)
  {
    hide Eligible, Candidates, NamesClash, Scoped, SortedBy, CollectionBefore;
    CandidateIDs(providers, input, id);
    var order :| InCollectionOrder(providers, Candidates(providers, input), order)
                 && EdgesInOrder(providers, c, input, kind, order, es);
    if EdgeToID(es, id) {
      var i :| 0 <= i < |es| && es[i].dependencyID == id;
      assert order[i] in order;
    }
    if v :| 0 <= v < |providers| && v in Candidates(providers, input) && providers[v].symbolID == id {
      assert v in order;
      var i :| 0 <= i < |order| && order[i] == v;
      assert es[i].dependencyID == id;
    }
  }

  lemma SingleTargets(providers: seq<Provider>, c: nat, input: Dependency, kind: DependencyKind, es: seq<Edge>,
                      id: string)
    requires c < |providers| && SingleOutcome(providers, c, input, kind, Candidates(providers, input), es, [])
    ensures EdgeToID(es, id) <==> HasID(Best(Members(providers), input), id)
  {
    TopIDs(providers, input, id);
    hide Eligible, Candidates, Best;
    var top := TopRanked(Candidates(providers, input), input.name, providers);
    if Candidates(providers, input) != {} {
      var p :| p < |providers| && top == {p};
      assert p in top;
      assert es == [EdgeTo(providers, c, p, input, kind, 0)];
      if v :| 0 <= v < |providers| && v in top && providers[v].symbolID == id { assert es[0].dependencyID == id; }
      if EdgeToID(es, id) { assert providers[p].symbolID == id; }
    }
  }

  lemma OutcomeTargets(providers: seq<Provider>, c: nat, input: Dependency, es: seq<Edge>, id: string)
    requires c < |providers| && InputOutcome(providers, c, input, es, [])
    ensures EdgeToID(es, id) <==> HasID(Targets(Members(providers), input), id)
  {
    CandidatesAreEligible(providers, input);
    hide SingleOutcome, CollectionOutcome, Candidates, Eligible, Best, Direct, ServedDirectly;
    if Collects(EffectiveKind(providers, input)) {
      CollectionTargets(providers, c, input, EffectiveKind(providers, input), es, id);
    } else {
      SingleTargets(providers, c, input, EffectiveKind(providers, input), es, id);
    }
  }

  lemma EdgesForMember(edges: seq<Edge>, c: nat, k: nat, e: Edge)
    ensures e in EdgesFor(edges, c, k) <==> e in edges && e.consumer == c && e.parameterIndex == k
  {
    EdgesForMultiset(edges, c, k, e);
    assert e in EdgesFor(edges, c, k) <==> e in multiset(EdgesFor(edges, c, k));
    assert e in edges <==> e in multiset(edges);
  }

  lemma SameMembers(a: seq<Edge>, b: seq<Edge>, id: string)
    requires multiset(a) == multiset(b)
    ensures EdgeToID(a, id) <==> EdgeToID(b, id)
  {
    if EdgeToID(a, id) {
      var i :| 0 <= i < |a| && a[i].dependencyID == id;
      assert a[i] in multiset(b);
    }
    if EdgeToID(b, id) {
      var i :| 0 <= i < |b| && b[i].dependencyID == id;
      assert b[i] in multiset(a);
    }
  }

  // ----- When wiring succeeds --------------------------------------------------------------------

  ghost predicate SharedName(s: set<Provider>) {
    exists p, q :: p in s && q in s && p != q && p.name == q.name
  }

  ghost predicate HasScoped(s: set<Provider>) { exists p :: p in s && p.scope != Singleton }

  ghost predicate OnlyMember(s: set<Provider>, p: Provider) { p in s && forall q :: q in s ==> q == p }

  /** A direct input has one best provider that may be injected as requested; an optional one may have none. */
  ghost predicate SingleAcceptable(catalog: set<Provider>, input: Dependency) {
    if Eligible(catalog, input) == {} then input.kind == KindOptional
    else exists p :: OnlyMember(Best(catalog, input), p) && (p.scope == Singleton || input.kind == KindProvider)
  }

  /** What the build accepts, said about the catalog alone. */
  ghost predicate Acceptable(catalog: set<Provider>, input: Dependency) {
    if Collects(input.kind) && !ServedDirectly(catalog, input) then
      !(input.kind == KindMap && SharedName(Eligible(catalog, input))) && !HasScoped(Eligible(catalog, input))
    else SingleAcceptable(catalog, input)
  }

  lemma ProviderAtIsInjective(providers: seq<Provider>, v: nat, w: nat)
    requires NoDuplicates(SymbolIDs(providers)) && v < |providers| && w < |providers| && providers[v] == providers[w]
    ensures v == w
  {
    assert SymbolIDs(providers)[v] == SymbolIDs(providers)[w];
  }

  lemma EligibleEmpty(providers: seq<Provider>, input: Dependency)
    ensures Candidates(providers, input) == {} <==> Eligible(Members(providers), input) == {}
  {
    CandidatesAreEligible(providers, input);
    if q :| q in Eligible(Members(providers), input) {
      EligibleIsMember(providers, input, q);
      var v :| 0 <= v < |providers| && providers[v] == q;
      assert v in Candidates(providers, input);
    }
    if v :| v in Candidates(providers, input) { assert providers[v] in Eligible(Members(providers), input); }
  }

  lemma EligibleIndex(providers: seq<Provider>, input: Dependency, p: Provider) returns (v: nat)
    requires p in Eligible(Members(providers), input)
    ensures v < |providers| && providers[v] == p && v in Candidates(providers, input)
  {
    CandidatesAreEligible(providers, input);
    EligibleIsMember(providers, input, p);
    hide Candidates, Eligible;
    v :| 0 <= v < |providers| && providers[v] == p;
  }

  lemma CandidateRecord(providers: seq<Provider>, input: Dependency, v: nat)
    requires v in Candidates(providers, input)
    ensures v < |providers| && providers[v] in Eligible(Members(providers), input)
  {
    CandidatesInRange(providers, input);
    CandidatesAreEligible(providers, input);
  }

  lemma NameClashIsShared(providers: seq<Provider>, input: Dependency)
    requires NoDuplicates(SymbolIDs(providers))
    ensures (exists name :: NamesClash(providers, Candidates(providers, input), name))
            <==> SharedName(Eligible(Members(providers), input))
  {
    hide Candidates, Eligible;
    if name :| NamesClash(providers, Candidates(providers, input), name) {
      var v, w :| v in Candidates(providers, input) && w in Candidates(providers, input) && v != w
                  && NameAt(providers, v) == NameAt(providers, w) == name;
      CandidateRecord(providers, input, v);
      CandidateRecord(providers, input, w);
      if providers[v] == providers[w] { ProviderAtIsInjective(providers, v, w); }
    }
    if SharedName(Eligible(Members(providers), input)) {
      var p, q :| p in Eligible(Members(providers), input) && q in Eligible(Members(providers), input) && p != q
                  && p.name == q.name;
      var v := EligibleIndex(providers, input, p);
      var w := EligibleIndex(providers, input, q);
      assert NamesClash(providers, Candidates(providers, input), p.name);
    }
  }

  lemma CandidatesInRange(providers: seq<Provider>, input: Dependency)
    ensures forall v :: v in Candidates(providers, input) ==> v < |providers|
  {
  }

  lemma ScopedIsScoped(providers: seq<Provider>, input: Dependency)
    ensures (exists v :: v in Candidates(providers, input) && Scoped(providers, v))
            <==> HasScoped(Eligible(Members(providers), input))
  {
    CandidatesAreEligible(providers, input);
    hide Candidates, Eligible;
    if HasScoped(Eligible(Members(providers), input)) {
      var p :| p in Eligible(Members(providers), input) && p.scope != Singleton;
      EligibleIsMember(providers, input, p);
      var v :| 0 <= v < |providers| && providers[v] == p;
      assert v in Candidates(providers, input) && Scoped(providers, v);
    }
  }

  lemma SingleTopIsOnlyBest(providers: seq<Provider>, input: Dependency, v: nat)
    requires NoDuplicates(SymbolIDs(providers)) && v < |providers|
    ensures TopRanked(Candidates(providers, input), input.name, providers) == {v}
            <==> OnlyMember(Best(Members(providers), input), providers[v])
  {
    var top := TopRanked(Candidates(providers, input), input.name, providers);
    CandidatesInRange(providers, input);
    TopRankedInRange(Candidates(providers, input), input.name, providers);
    hide Candidates, Eligible, TopRanked;
    TopIsBest(providers, input, v);
    if top == {v} {
      forall q | q in Best(Members(providers), input) ensures q == providers[v] {
        EligibleIsMember(providers, input, q);
        var w :| 0 <= w < |providers| && providers[w] == q;
        TopIsBest(providers, input, w);
        assert w in top;
      }
    }
    if OnlyMember(Best(Members(providers), input), providers[v]) {
      forall w | w in top ensures w == v {
        TopIsBest(providers, input, w);
        ProviderAtIsInjective(providers, v, w);
      }
    }
  }

  lemma SingleDecided(providers: seq<Provider>, c: nat, input: Dependency, kind: DependencyKind, es: seq<Edge>,
                      ds: seq<Diagnostic>)
    requires NoDuplicates(SymbolIDs(providers)) && c < |providers|
    requires SingleOutcome(providers, c, input, kind, Candidates(providers, input), es, ds)
    ensures ds == [] <==> SingleAcceptable(Members(providers), input)
  {
    EligibleEmpty(providers, input);
    hide Candidates, Eligible, Best, TopRanked;
    var top := TopRanked(Candidates(providers, input), input.name, providers);
    if Candidates(providers, input) != {} {
      if p: nat :| p < |providers| && top == {p} {
        SingleTopIsOnlyBest(providers, input, p);
        assert forall q: nat :: top == {q} ==> q == p by { assert p in top; }
      } else if SingleAcceptable(Members(providers), input) {
        var p :| OnlyMember(Best(Members(providers), input), p) && (p.scope == Singleton || input.kind == KindProvider);
        BestIsMember(providers, input, p);
        var v :| 0 <= v < |providers| && providers[v] == p;
        SingleTopIsOnlyBest(providers, input, v);
      }
    }
  }

  lemma BestIsMember(providers: seq<Provider>, input: Dependency, p: Provider)
    requires p in Best(Members(providers), input)
    ensures p in providers
  {
  }

  /** An input is accepted exactly when the catalog, read as a set, meets its requirement. */
  lemma AcceptedIffAcceptable(providers: seq<Provider>, c: nat, input: Dependency, es: seq<Edge>, ds: seq<Diagnostic>)
    requires NoDuplicates(SymbolIDs(providers)) && c < |providers| && InputOutcome(providers, c, input, es, ds)
    ensures ds == [] <==> Acceptable(Members(providers), input)
  {
    CandidatesAreEligible(providers, input);
    hide SingleOutcome, Candidates, Eligible, Best, Direct, ServedDirectly, NamesClash, Scoped, SharedName, HasScoped,
         SingleAcceptable, InCollectionOrder, EdgesInOrder;
    if Collects(EffectiveKind(providers, input)) {
      NameClashIsShared(providers, input);
      ScopedIsScoped(providers, input);
    } else {
      SingleDecided(providers, c, input, EffectiveKind(providers, input), es, ds);
    }
  }

  ghost predicate CatalogAcceptable(catalog: set<Provider>) {
    forall p, input :: p in catalog && input in p.dependencies ==> Acceptable(catalog, input)
  }

  // ----- The recorded relation -------------------------------------------------------------------

  lemma SettledInputTargets(providers: seq<Provider>, r: Result, c: nat, k: nat, id: string)
    requires NoDuplicates(SymbolIDs(providers)) && Settled(providers, r.edges, r.diagnostics, c, k)
    ensures DiagnosticsFor(r.diagnostics, providers[c].symbolID, k) == []
            <==> Acceptable(Members(providers), providers[c].dependencies[k])
    ensures EdgeToID(EdgesFor(r.edges, c, k), id) <==>
              Acceptable(Members(providers), providers[c].dependencies[k])
              && HasID(Targets(Members(providers), providers[c].dependencies[k]), id)
  {
    hide InputOutcome, EdgesFor, DiagnosticsFor, Targets, Acceptable;
    var input, ds := providers[c].dependencies[k], DiagnosticsFor(r.diagnostics, providers[c].symbolID, k);
    var es :| multiset(EdgesFor(r.edges, c, k)) == multiset(es) && InputOutcome(providers, c, input, es, ds);
    SameMembers(EdgesFor(r.edges, c, k), es, id);
    AcceptedIffAcceptable(providers, c, input, es, ds);
    if ds == [] {
      OutcomeTargets(providers, c, input, es, id);
    } else {
      OutcomeIsDecided(providers, c, input, es, ds, es, ds);
    }
  }

  lemma EdgeIsDeclared(providers: seq<Provider>, r: Result, e: Edge)
    requires NoDuplicates(SymbolIDs(providers)) && SoundEdges(providers, r.edges)
    requires AllSettled(providers, r.edges, r.diagnostics) && OnlyInputs(providers, r.edges) && e in r.edges
    ensures Declared(Members(providers), e.consumerID, e.dependencyID)
  {
    hide InputOutcome, EdgesFor, DiagnosticsFor, Targets, Settled, Acceptable;
    var c, k := e.consumer, e.parameterIndex;
    assert SoundEdge(providers, e);
    EdgesForMember(r.edges, c, k, e);
    assert IsInput(providers, c, k);
    SettledInputTargets(providers, r, c, k, e.dependencyID);
    var j :| 0 <= j < |EdgesFor(r.edges, c, k)| && EdgesFor(r.edges, c, k)[j] == e;
    assert EdgeToID(EdgesFor(r.edges, c, k), e.dependencyID);
    var input := providers[c].dependencies[k];
    var q :| q in Targets(Members(providers), input) && q.symbolID == e.dependencyID;
    assert providers[c] in Members(providers) && input in providers[c].dependencies;
  }

  lemma DeclaredHasEdge(providers: seq<Provider>, r: Result, a: string, b: string) returns (e: Edge)
    requires NoDuplicates(SymbolIDs(providers)) && SoundEdges(providers, r.edges)
    requires AllSettled(providers, r.edges, r.diagnostics) && Declared(Members(providers), a, b)
    ensures e in r.edges && e.consumerID == a && e.dependencyID == b
  {
    hide InputOutcome, EdgesFor, DiagnosticsFor, Targets, Settled, Acceptable;
    var p, input, q :| p in Members(providers) && input in p.dependencies && Acceptable(Members(providers), input)
                       && q in Targets(Members(providers), input) && p.symbolID == a && q.symbolID == b;
    var c :| 0 <= c < |providers| && providers[c] == p;
    var k :| 0 <= k < |p.dependencies| && p.dependencies[k] == input;
    assert IsInput(providers, c, k);
    SettledInputTargets(providers, r, c, k, b);
    assert HasID(Targets(Members(providers), input), b);
    var j :| 0 <= j < |EdgesFor(r.edges, c, k)| && EdgesFor(r.edges, c, k)[j].dependencyID == b;
    e := EdgesFor(r.edges, c, k)[j];
    EdgesForMember(r.edges, c, k, e);
    assert SoundEdge(providers, e);
  }

  /** The recorded edges are exactly the declared dependency relation of the catalog as a set, faults or not. */
  lemma EdgesAreDeclared(providers: seq<Provider>, r: Result, a: string, b: string)
    requires CatalogReady(providers) && Built(providers, r)
    ensures (a, b) in DependsOn(r.edges) <==> Declared(Members(providers), a, b)
  {
    hide AllSettled, OnlyInputs, OnlyInputDiagnostics, SoundEdges, HasCycle, CyclesReported, Cyclic, Declared,
         LeastOrder.Topological;
    if (a, b) in DependsOn(r.edges) {
      var i :| 0 <= i < |r.edges| && (r.edges[i].consumerID, r.edges[i].dependencyID) == (a, b);
      EdgeIsDeclared(providers, r, r.edges[i]);
    }
    if Declared(Members(providers), a, b) {
      var e := DeclaredHasEdge(providers, r, a, b);
      var i :| 0 <= i < |r.edges| && r.edges[i] == e;
    }
  }

  /** An input is reported exactly when the catalog, read as a set, does not meet its requirement. */
  lemma FaultedIffUnacceptable(providers: seq<Provider>, r: Result, c: nat, k: nat)
    requires CatalogReady(providers) && Built(providers, r) && IsInput(providers, c, k)
    ensures DiagnosticsFor(r.diagnostics, providers[c].symbolID, k) == []
            <==> Acceptable(Members(providers), providers[c].dependencies[k])
  {
    hide Settled, DiagnosticsFor, Acceptable, OnlyInputs, OnlyInputDiagnostics, SoundEdges, HasCycle, CyclesReported,
         Cyclic, LeastOrder.Topological;
    assert Settled(providers, r.edges, r.diagnostics, c, k);
    SettledInputTargets(providers, r, c, k, "");
  }

  /** A wiring diagnostic is reported exactly when some input of some provider is not acceptable. */
  lemma WiringFaultIffUnacceptable(providers: seq<Provider>, r: Result)
    requires CatalogReady(providers) && Built(providers, r)
    ensures HasWiringFault(r.diagnostics) <==> !CatalogAcceptable(Members(providers))
  {
    hide Acceptable, AllSettled, DiagnosticsFor, HasCycle, Cyclic, CyclesReported, OnlyInputs, SoundEdges,
         LeastOrder.Topological;
    if HasWiringFault(r.diagnostics) {
      var d :| d in r.diagnostics && !d.CycleFound?;
      assert AboutInput(providers, d, |providers|, 0);
      var c: nat, k: nat :| IsInput(providers, c, k) && IsAbout(d, providers[c].symbolID, k);
      InDiagnosticsFor(r.diagnostics, providers[c].symbolID, k, d);
      FaultedIffUnacceptable(providers, r, c, k);
      assert providers[c] in Members(providers) && providers[c].dependencies[k] in providers[c].dependencies;
    } else {
      forall p, input | p in Members(providers) && input in p.dependencies
        ensures Acceptable(Members(providers), input)
      {
        var c :| 0 <= c < |providers| && providers[c] == p;
        var k :| 0 <= k < |p.dependencies| && p.dependencies[k] == input;
        assert IsInput(providers, c, k);
        FaultedIffUnacceptable(providers, r, c, k);
        NoFaultNoDiagnosticsFor(r.diagnostics, providers[c].symbolID, k);
      }
    }
  }

  /** Whether an input has a wiring diagnostic. */
  ghost predicate Faulted(providers: seq<Provider>, r: Result, c: nat, k: nat) {
    c < |providers| && DiagnosticsFor(r.diagnostics, providers[c].symbolID, k) != []
  }

  /**
   * Re-listing or re-numbering a catalog changes nothing the build reports about it: the same inputs are faulted,
   * the dependency relation is the same, it has a cycle in both or in neither, and the emitted sequence of
   * identifiers is the same.
   */
  lemma BuildIgnoresNumbering(providers: seq<Provider>, r: Result, providers': seq<Provider>, r': Result)
    requires CatalogReady(providers) && CatalogReady(providers') && Members(providers) == Members(providers')
    requires Built(providers, r) && Built(providers', r')
    ensures forall c: nat, c': nat, k: nat ::
              IsInput(providers, c, k) && IsInput(providers', c', k) && providers[c] == providers'[c'] ==>
                (Faulted(providers, r, c, k) <==> Faulted(providers', r', c', k))
    ensures DependsOn(r.edges) == DependsOn(r'.edges)
    ensures HasCycle(r.diagnostics) <==> HasCycle(r'.diagnostics)
    ensures HasWiringFault(r.diagnostics) <==> HasWiringFault(r'.diagnostics)
    ensures r.diagnostics == [] <==> r'.diagnostics == []
    ensures r.diagnostics == [] ==>
              ConstructionOrder.Names(r.order, SymbolIDs(providers))
              == ConstructionOrder.Names(r'.order, SymbolIDs(providers'))
  {
    hide Acceptable, Declared, Cyclic, CyclesReported, AllSettled, OnlyInputs, OnlyInputDiagnostics, CatalogAcceptable,
         SoundEdges, DiagnosticsFor, CatalogReady;
    forall c: nat, c': nat, k: nat | IsInput(providers, c, k) && IsInput(providers', c', k)
                                     && providers[c] == providers'[c']
      ensures Faulted(providers, r, c, k) <==> Faulted(providers', r', c', k)
    {
      FaultedIffUnacceptable(providers, r, c, k);
      FaultedIffUnacceptable(providers', r', c', k);
    }
    WiringFaultIffUnacceptable(providers, r);
    WiringFaultIffUnacceptable(providers', r');
    forall a, b ensures (a, b) in DependsOn(r.edges) <==> (a, b) in DependsOn(r'.edges) {
      EdgesAreDeclared(providers, r, a, b);
      EdgesAreDeclared(providers', r', a, b);
    }
    assert DependsOn(r.edges) == DependsOn(r'.edges);
    NoFaultNoDiagnostic(r.diagnostics);
    NoFaultNoDiagnostic(r'.diagnostics);
    SameIDs(providers, providers');
  }

  lemma NoFaultNoDiagnostic(diagnostics: seq<Diagnostic>)
    ensures diagnostics == [] <==> !HasCycle(diagnostics) && !HasWiringFault(diagnostics)
  {
    if diagnostics != [] { assert diagnostics[0] in diagnostics; }
  }

  lemma SameIDs(providers: seq<Provider>, providers': seq<Provider>)
    requires Members(providers) == Members(providers')
    ensures LeastOrder.Elements(SymbolIDs(providers)) == LeastOrder.Elements(SymbolIDs(providers'))
  {
    IDsFollowMembers(providers, providers');
    IDsFollowMembers(providers', providers);
  }

  lemma IDsFollowMembers(providers: seq<Provider>, providers': seq<Provider>)
    requires Members(providers) <= Members(providers')
    ensures LeastOrder.Elements(SymbolIDs(providers)) <= LeastOrder.Elements(SymbolIDs(providers'))
  {
    forall id | id in LeastOrder.Elements(SymbolIDs(providers))
      ensures id in LeastOrder.Elements(SymbolIDs(providers'))
    {
      var v :| 0 <= v < |providers| && providers[v].symbolID == id;
      assert providers[v] in Members(providers);
      var w :| 0 <= w < |providers'| && providers'[w] == providers[v];
      assert SymbolIDs(providers')[w] == id;
    }
  }
}
