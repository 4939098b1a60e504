/** Duplicate-free lists of provider indices in symbol order (compiler/graph/build.go, sortedUnique). */
module SymbolLists {
  import opened Digraph
  import opened Sorting
  import opened Tarjan
  import StringOrder

  ghost predicate InRange(s: seq<nat>, n: nat) { forall v :: v in s ==> v < n }

  /** Strictly ascending by symbol identifier. */
  ghost predicate Ascending(s: seq<nat>, ids: seq<string>) {
    forall i, j :: 0 <= i < j < |s| ==> SymbolBefore(ids)(s[i], s[j])
  }

  lemma AscendingHasNoDuplicates(s: seq<nat>, ids: seq<string>)
    requires Ascending(s, ids)
    ensures NoDuplicates(s)
  {
    forall i, j | 0 <= i < j < |s| ensures s[i] != s[j] {
      StringOrder.LessIrreflexive(Symbol(ids, s[i]));
    }
  }

  /** Two ascending lists of the same indices are the same list. */
  lemma {:induction false} AscendingIsUnique(s: seq<nat>, t: seq<nat>, ids: seq<string>)
    requires Ascending(s, ids) && Ascending(t, ids)
    requires forall v :: v in s <==> v in t
    ensures s == t
  {
    AscendingHasNoDuplicates(s, ids);
    AscendingHasNoDuplicates(t, ids);
    assert t != [] ==> t[0] in t;
    if s != [] {
      assert s[0] in s && s[0] in t;
      assert t[0] in t && t[0] in s;
      var i :| 0 <= i < |t| && t[i] == s[0];
      var j :| 0 <= j < |s| && s[j] == t[0];
      if i > 0 && j > 0 { StringOrder.LessAsymmetric(Symbol(ids, s[0]), Symbol(ids, t[0])); }
      assert s[0] == t[0];
      forall v ensures v in s[1..] <==> v in t[1..] {
        assert v in s <==> v == s[0] || v in s[1..] by { assert s == [s[0]] + s[1..]; }
        assert v in t <==> v == t[0] || v in t[1..] by { assert t == [t[0]] + t[1..]; }
      }
      AscendingIsUnique(s[1..], t[1..], ids);
    }
  }

  lemma AscendingAppend(r: seq<nat>, x: nat, ids: seq<string>)
    requires Ascending(r, ids) && InRange(r, |ids|) && x < |ids| && NoDuplicates(ids)
    requires forall v :: v in r ==> !SymbolBefore(ids)(x, v)
    requires r != [] ==> r[|r|-1] != x
    ensures Ascending(r + [x], ids)
  {
    forall i | 0 <= i < |r| ensures SymbolBefore(ids)(r[i], x) {
      var last := r[|r|-1];
      assert last in r && r[i] in r;
      StringOrder.LessTotal(ids[last], ids[x]);
      if i < |r| - 1 { StringOrder.LessTransitive(ids[r[i]], ids[last], ids[x]); }
    }
  }

  /** Sorts by symbol and drops adjacent repetitions; with unique identifiers that drops every repetition. */
  method SortedUnique(values: seq<nat>, ids: seq<string>) returns (result: seq<nat>)
    requires NoDuplicates(ids) && InRange(values, |ids|)
    ensures Ascending(result, ids) && forall v :: v in result <==> v in values
  {
    var sorted := StableSort(values, SymbolBefore(ids));
    SymbolOrdersAreStrictWeak(ids);
    StableSortSorted(values, SymbolBefore(ids));
    SameElements(sorted, values);
    hide SymbolBefore, StrictWeakOrder;
    result := [];
    for i := 0 to |sorted|
      invariant Ascending(result, ids)
      invariant forall v :: v in result <==> v in sorted[..i]
    {
      var value := sorted[i];
      assert sorted[..i+1] == sorted[..i] + [value];
      assert value in sorted;
      if result == [] || result[|result|-1] != value {
        forall v | v in result ensures !SymbolBefore(ids)(value, v) {
          var j :| 0 <= j < i && sorted[j] == v;
        }
        assert InRange(result, |ids|) by { forall v | v in result ensures v in sorted {} }
        AscendingAppend(result, value, ids);
        result := result + [value];
      }
    }
    assert sorted[..|sorted|] == sorted;
  }
}
