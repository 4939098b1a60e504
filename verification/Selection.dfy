/** Choosing the provider of one input (compiler/graph/build.go: selectedCandidates and its filters). */
module Selection {
  import opened Catalog
  import opened SymbolLists
  import opened Tarjan

  // ----- What selection means --------------------------------------------------------------------

  predicate Named(item: Provider, name: string) { item.name == name || name in item.aliases }

  predicate AnswersTo(item: Provider, qualifier: string) {
    qualifier == item.name || qualifier in item.aliases || qualifier in item.qualifiers
  }

  ghost predicate Qualified(item: Provider, qualifiers: seq<string>) {
    forall q :: q in qualifiers ==> item.name == q || q in item.aliases || q in item.qualifiers
  }

  ghost predicate QualifiedAt(providers: seq<Provider>, v: nat, qualifiers: seq<string>) {
    v < |providers| && Qualified(providers[v], qualifiers)
  }

  /** Regular beans outrank fallbacks, then primary beans, then beans named like the parameter. */
  function Rank(item: Provider, name: string): nat {
    (if item.fallback then 0 else 4)
    + (if item.primary then 2 else 0)
    + (if name != "" && Named(item, name) then 1 else 0)
  }

  ghost function RankOf(providers: seq<Provider>, name: string, v: nat): nat {
    if v < |providers| then Rank(providers[v], name) else 0
  }

  /** The candidates no other candidate outranks. */
  ghost function TopRanked(candidates: set<nat>, name: string, providers: seq<Provider>): set<nat> {
    set v | v in candidates && forall w :: w in candidates ==> RankOf(providers, name, w) <= RankOf(providers, name, v)
  }

  // ----- The filters -----------------------------------------------------------------------------

  ghost function ElementsOf(s: seq<nat>): set<nat> { set v: nat | v in s }

  lemma FilterStaysAscending(result: seq<nat>, candidates: seq<nat>, i: nat, ids: seq<string>)
    requires Ascending(candidates, ids) && i < |candidates| && Ascending(result, ids)
    requires forall v :: v in result ==> v in candidates[..i]
    ensures Ascending(result + [candidates[i]], ids)
    ensures forall v :: v in candidates[..i+1] <==> v in candidates[..i] || v == candidates[i]
  {
    assert candidates[..i+1] == candidates[..i] + [candidates[i]];
    forall k | 0 <= k < |result| ensures SymbolBefore(ids)(result[k], candidates[i]) {
      assert result[k] in candidates[..i];
      var j :| 0 <= j < i && candidates[j] == result[k];
    }
  }

  method FilterQualified(candidates: seq<nat>, qualifiers: seq<string>, providers: seq<Provider>)
      returns (result: seq<nat>)
    requires Ascending(candidates, SymbolIDs(providers)) && InRange(candidates, |providers|)
    ensures Ascending(result, SymbolIDs(providers))
    ensures forall v :: v in result <==> v in candidates && QualifiedAt(providers, v, qualifiers)
  {
    if |qualifiers| == 0 {
      assert forall v :: v in candidates ==> QualifiedAt(providers, v, qualifiers);
      return candidates;
    }
    result := [];
    for i := 0 to |candidates|
      invariant Ascending(result, SymbolIDs(providers))
      invariant forall v :: v in result <==> v in candidates[..i] && QualifiedAt(providers, v, qualifiers)
    {
      assert candidates[i] in candidates;
      FilterStaysAscending(result, candidates, i, SymbolIDs(providers));
      var item := providers[candidates[i]];
      var matched := true;
      var q := 0;
      while q < |qualifiers|
        invariant 0 <= q <= |qualifiers|
        invariant item == providers[candidates[i]]
        invariant matched && forall k :: 0 <= k < q ==> AnswersTo(item, qualifiers[k])
      {
        if !AnswersTo(item, qualifiers[q]) {
          assert qualifiers[q] in qualifiers && !QualifiedAt(providers, candidates[i], qualifiers);
          matched := false;
          break;
        }
        q := q + 1;
      }
      if matched { result := result + [candidates[i]]; }
    }
    assert candidates[..|candidates|] == candidates;
  }

  /** The candidates that satisfy a preference, or all of them when none does. */
  ghost function Preferred(candidates: set<nat>, preference: set<nat>): set<nat> {
    if candidates * preference != {} then candidates * preference else candidates
  }

  ghost function Regular(providers: seq<Provider>): set<nat> {
    set v: nat | v < |providers| && !providers[v].fallback
  }

  ghost function Primary(providers: seq<Provider>): set<nat> {
    set v: nat | v < |providers| && providers[v].primary
  }

  ghost function NamedLike(providers: seq<Provider>, name: string): set<nat> {
    set v: nat | v < |providers| && name in [providers[v].name] + providers[v].aliases
  }

  /** A list is a faithful listing of a set when ascending and equal in membership. */
  ghost predicate Lists(list: seq<nat>, s: set<nat>, ids: seq<string>) {
    Ascending(list, ids) && forall v :: v in list <==> v in s
  }

  lemma ListsEmpty(list: seq<nat>, s: set<nat>, ids: seq<string>)
    requires Lists(list, s, ids)
    ensures list == [] <==> s == {}
  {
    assert list != [] ==> list[0] in s;
    if v :| v in s { assert v in list; }
  }

  method PreferNonFallback(candidates: seq<nat>, providers: seq<Provider>) returns (result: seq<nat>)
    requires Ascending(candidates, SymbolIDs(providers)) && InRange(candidates, |providers|)
    ensures Lists(result, Preferred(ElementsOf(candidates), Regular(providers)), SymbolIDs(providers))
  {
    var regular: seq<nat> := [];
    for i := 0 to |candidates|
      invariant Lists(regular, ElementsOf(candidates[..i]) * Regular(providers), SymbolIDs(providers))
    {
      assert candidates[i] in candidates;
      FilterStaysAscending(regular, candidates, i, SymbolIDs(providers));
      if !providers[candidates[i]].fallback { regular := regular + [candidates[i]]; }
    }
    assert candidates[..|candidates|] == candidates;
    ListsEmpty(regular, ElementsOf(candidates) * Regular(providers), SymbolIDs(providers));
    result := if |regular| != 0 then regular else candidates;
  }

  method SelectPrimary(candidates: seq<nat>, providers: seq<Provider>) returns (result: seq<nat>)
    requires Ascending(candidates, SymbolIDs(providers)) && InRange(candidates, |providers|)
    ensures Lists(result, Preferred(ElementsOf(candidates), Primary(providers)), SymbolIDs(providers))
  {
    var primary: seq<nat> := [];
    for i := 0 to |candidates|
      invariant Lists(primary, ElementsOf(candidates[..i]) * Primary(providers), SymbolIDs(providers))
    {
      assert candidates[i] in candidates;
      FilterStaysAscending(primary, candidates, i, SymbolIDs(providers));
      if providers[candidates[i]].primary { primary := primary + [candidates[i]]; }
    }
    assert candidates[..|candidates|] == candidates;
    ListsEmpty(primary, ElementsOf(candidates) * Primary(providers), SymbolIDs(providers));
    result := if |primary| != 0 then primary else candidates;
  }

  method SelectByParameterName(candidates: seq<nat>, name: string, providers: seq<Provider>) returns (result: seq<nat>)
    requires Ascending(candidates, SymbolIDs(providers)) && InRange(candidates, |providers|)
    ensures Lists(result, Preferred(ElementsOf(candidates), NamedLike(providers, name)), SymbolIDs(providers))
  {
    var named: seq<nat> := [];
    for i := 0 to |candidates|
      invariant Lists(named, ElementsOf(candidates[..i]) * NamedLike(providers, name), SymbolIDs(providers))
    {
      assert candidates[i] in candidates;
      FilterStaysAscending(named, candidates, i, SymbolIDs(providers));
      if Named(providers[candidates[i]], name) { named := named + [candidates[i]]; }
    }
    assert candidates[..|candidates|] == candidates;
    ListsEmpty(named, ElementsOf(candidates) * NamedLike(providers, name), SymbolIDs(providers));
    result := if |named| != 0 then named else candidates;
  }

  lemma SingletonPreference(list: seq<nat>, preference: set<nat>)
    requires |list| <= 1
    ensures Preferred(ElementsOf(list), preference) == ElementsOf(list)
  {
    if |list| == 1 { assert list == [list[0]]; } else { assert list == []; }
  }

  /** Filtering tier by tier keeps exactly the top-ranked candidates. */
  lemma TiersAreRanks(candidates: set<nat>, name: string, providers: seq<Provider>)
    requires forall v :: v in candidates ==> v < |providers|
    ensures var regular := Preferred(candidates, Regular(providers));
            var primary := Preferred(regular, Primary(providers));
            (if name != "" then Preferred(primary, NamedLike(providers, name)) else primary)
            == TopRanked(candidates, name, providers)
  {
    var regular := Preferred(candidates, Regular(providers));
    var primary := Preferred(regular, Primary(providers));
    var chosen := if name != "" then Preferred(primary, NamedLike(providers, name)) else primary;
    forall v, w | v in chosen && w in candidates ensures RankOf(providers, name, w) <= RankOf(providers, name, v) {
      assert w in Regular(providers) ==> v in Regular(providers) by {
        if w in Regular(providers) { assert w in candidates * Regular(providers); }
      }
      if w in regular && w in Primary(providers) { assert w in regular * Primary(providers); }
      if w in primary && w in NamedLike(providers, name) { assert w in primary * NamedLike(providers, name); }
    }
    forall v | v in TopRanked(candidates, name, providers) ensures v in chosen {
      if r :| r in candidates * Regular(providers) { assert v in Regular(providers); }
      assert v in regular;
      if p :| p in regular * Primary(providers) { assert v in Primary(providers); }
      assert v in primary;
      if n :| n in primary * NamedLike(providers, name) && name != "" { assert v in NamedLike(providers, name); }
    }
  }

  /** Selection returns the top-ranked candidates; the early exits change nothing. */
  method SelectedCandidates(candidates: seq<nat>, name: string, providers: seq<Provider>) returns (result: seq<nat>)
    requires Ascending(candidates, SymbolIDs(providers)) && InRange(candidates, |providers|)
    ensures Lists(result, TopRanked(ElementsOf(candidates), name, providers), SymbolIDs(providers))
  {
    hide Ascending, TopRanked;
    TiersAreRanks(ElementsOf(candidates), name, providers);
    result := PreferNonFallback(candidates, providers);
    ghost var regular := Preferred(ElementsOf(candidates), Regular(providers));
    assert ElementsOf(result) == regular;
    SingletonOrNot(result, Primary(providers));
    if |result| > 1 { result := SelectPrimary(result, providers); }
    ghost var primary := Preferred(regular, Primary(providers));
    assert ElementsOf(result) == primary;
    SingletonOrNot(result, NamedLike(providers, name));
    if |result| > 1 && name != "" { result := SelectByParameterName(result, name, providers); }
  }

  lemma SingletonOrNot(list: seq<nat>, preference: set<nat>)
    ensures |list| <= 1 ==> Preferred(ElementsOf(list), preference) == ElementsOf(list)
  {
    if |list| <= 1 { SingletonPreference(list, preference); }
  }
}
