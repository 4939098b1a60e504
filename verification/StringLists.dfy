/** Sorted lists and finite sets of strings, shared by the writers that sort names. */
module StringLists {
  import opened Digraph
  import opened Sorting
  import LeastOrder
  import StringOrder
  import Tarjan

  /** The members of a set in ascending order. */
  ghost predicate Lists(list: seq<string>, s: set<string>) {
    && (forall i, j :: 0 <= i < j < |list| ==> StringOrder.Less(list[i], list[j]))
    && LeastOrder.Elements(list) == s
  }

  function StringBefore(): (string, string) -> bool { (a: string, b: string) => StringOrder.Less(a, b) }

  lemma ListsFacts(list: seq<string>, s: set<string>)
    requires Lists(list, s)
    ensures NoDuplicates(list) && (list == [] <==> s == {})
    ensures list != [] ==> StringOrder.IsLeast(list[0], s) && Lists(list[1..], s - {list[0]})
  {
    forall i, j | 0 <= i < j < |list| ensures list[i] != list[j] { StringOrder.LessIrreflexive(list[i]); }
    if list != [] {
      assert list[0] in s;
      assert list == [list[0]] + list[1..];
      forall x | x in s && x != list[0] ensures StringOrder.Less(list[0], x) {
        var i :| 0 <= i < |list| && list[i] == x;
      }
    }
  }

  /** Sorting as sort.Strings does. */
  function SortStrings(values: seq<string>): (r: seq<string>)
    ensures multiset(r) == multiset(values)
  {
    StableSort(values, StringBefore())
  }

  lemma SortStringsLists(values: seq<string>)
    requires NoDuplicates(values)
    ensures Lists(SortStrings(values), LeastOrder.Elements(values))
  {
    var r := SortStrings(values);
    Tarjan.KeyedOrderIsStrictWeak(StringBefore(), s => s);
    StableSortSorted(values, StringBefore());
    SameElements(r, values);
    NoDuplicatesPermuted(r, values);
    forall i, j | 0 <= i < j < |r| ensures StringOrder.Less(r[i], r[j]) { StringOrder.LessTotal(r[i], r[j]); }
  }

  lemma {:induction false} SubsetIsSmaller(a: set<string>, b: set<string>)
    requires a <= b
    ensures |a| <= |b|
    decreases |a|
  {
    if a != {} {
      var x :| x in a;
      SubsetIsSmaller(a - {x}, b - {x});
    }
  }
}
