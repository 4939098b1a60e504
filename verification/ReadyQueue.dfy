/** The priority queue of ready providers: a binary heap over symbol identifiers (compiler/graph/build.go). */
module ReadyQueue {
  import opened Sorting
  import opened Tarjan
  import StringOrder

  function Parent(j: nat): nat { if j == 0 then 0 else (j - 1) / 2 }

  /** Heap order between positions below n whose parent is at or past lo, ignoring children of `hole`. */
  ghost predicate Ordered(v: seq<nat>, n: nat, before: (nat, nat) -> bool, lo: nat, hole: int)
    requires n <= |v|
  {
    forall j :: 0 < j < n && lo <= Parent(j) != hole ==> !before(v[j], v[Parent(j)])
  }

  ghost predicate IsHeap(v: seq<nat>, before: (nat, nat) -> bool) { Ordered(v, |v|, before, 0, -1) }

  /** Children of i are in order with i's own parent. */
  ghost predicate Bridged(v: seq<nat>, n: nat, before: (nat, nat) -> bool, lo: nat, i: nat)
    requires n <= |v| && i < |v|
  {
    forall j :: 0 < j < n && Parent(j) == i && 0 < i && lo <= Parent(i) ==> !before(v[j], v[Parent(i)])
  }

  lemma {:induction false} RootIsLeast(v: seq<nat>, before: (nat, nat) -> bool, j: nat)
    requires StrictWeakOrder(before) && IsHeap(v, before) && j < |v|
    ensures !before(v[j], v[0])
  {
    if j > 0 { RootIsLeast(v, before, Parent(j)); }
  }

  function Swapped(v: seq<nat>, i: nat, j: nat): (r: seq<nat>)
    requires i < |v| && j < |v|
    ensures multiset(r) == multiset(v) && |r| == |v|
  {
    SwapKeepsMultiset(v, i, j);
    v[i := v[j]][j := v[i]]
  }

  lemma SwappedEnds(v: seq<nat>)
    requires v != []
    ensures Swapped(v, 0, |v| - 1)[|v|-1..] == [v[0]]
  {
  }

  lemma SwappedKeepsTail(v: seq<nat>, i: nat, j: nat, n: nat)
    requires i < n && j < n && n <= |v|
    ensures Swapped(v, i, j)[n..] == v[n..]
  {
  }

  lemma SwapKeepsMultiset(v: seq<nat>, i: nat, j: nat)
    requires i < |v| && j < |v|
    ensures multiset(v[i := v[j]][j := v[i]]) == multiset(v)
  {
    assert v[i := v[j]] == v[..i] + [v[j]] + v[i+1..];
    assert v == v[..i] + [v[i]] + v[i+1..];
    var w := v[i := v[j]];
    assert w == w[..j] + [w[j]] + w[j+1..];
    assert w[j := v[i]] == w[..j] + [v[i]] + w[j+1..];
  }

  /** One step of sifting down: swapping with the smaller child moves the hole there. */
  lemma SiftDownStep(v: seq<nat>, n: nat, before: (nat, nat) -> bool, lo: nat, i: nat, c: nat)
    requires StrictWeakOrder(before) && n <= |v| && lo <= i && i < c < n && Parent(c) == i
    requires Ordered(v, n, before, lo, i) && Bridged(v, n, before, lo, i)
    requires before(v[c], v[i])
    requires forall j :: 0 < j < n && Parent(j) == i ==> !before(v[j], v[c])
    ensures Ordered(Swapped(v, i, c), n, before, lo, c) && Bridged(Swapped(v, i, c), n, before, lo, c)
  {
  }

  lemma SiftDownStarts(v: seq<nat>, n: nat, before: (nat, nat) -> bool, lo: nat)
    requires lo < n <= |v|
    ensures Bridged(v, n, before, lo, lo)
  {
  }

  /** The child chosen is the least child. */
  lemma ChosenChild(v: seq<nat>, n: nat, before: (nat, nat) -> bool, i: nat, c: nat)
    requires StrictWeakOrder(before) && 2 * i + 1 < n <= |v| && 2 * i + 1 <= c <= 2 * i + 2 && c < n
    requires c == 2 * i + 1 ==> 2 * i + 2 < n ==> !before(v[2 * i + 2], v[c])
    requires c == 2 * i + 2 ==> before(v[c], v[2 * i + 1])
    ensures Parent(c) == i && forall j :: 0 < j < n && Parent(j) == i ==> !before(v[j], v[c])
  {
    assert forall j :: 0 < j < n && Parent(j) == i ==> j == 2 * i + 1 || j == 2 * i + 2;
  }

  lemma OrderBelowChild(v: seq<nat>, n: nat, before: (nat, nat) -> bool, lo: nat, i: nat, c: nat)
    requires StrictWeakOrder(before) && n <= |v| && i < |v| && c < n && Ordered(v, n, before, lo, i)
    requires forall j :: 0 < j < n && Parent(j) == i ==> !before(v[j], v[c])
    requires !before(v[c], v[i])
    ensures Ordered(v, n, before, lo, -1)
  {
  }

  lemma NoChildren(v: seq<nat>, n: nat, before: (nat, nat) -> bool, lo: nat, i: nat)
    requires n <= |v| && n <= 2 * i + 1 && Ordered(v, n, before, lo, i)
    ensures Ordered(v, n, before, lo, -1)
  {
  }

  /** Everything ordered except the pair (i, its parent). */
  ghost predicate OrderedAbove(v: seq<nat>, before: (nat, nat) -> bool, i: nat)
  {
    && (forall j :: 0 < j < |v| && j != i ==> !before(v[j], v[Parent(j)]))
    && (forall j :: 0 < j < |v| && Parent(j) == i && 0 < i < |v| ==> !before(v[j], v[Parent(i)]))
  }

  lemma SiftUpStep(v: seq<nat>, before: (nat, nat) -> bool, i: nat)
    requires StrictWeakOrder(before) && 0 < i < |v| && OrderedAbove(v, before, i)
    requires before(v[i], v[Parent(i)])
    ensures OrderedAbove(Swapped(v, Parent(i), i), before, Parent(i))
  {
  }

  lemma SiftUpDone(v: seq<nat>, before: (nat, nat) -> bool, i: nat)
    requires i < |v| && OrderedAbove(v, before, i) && (i == 0 || !before(v[i], v[Parent(i)]))
    ensures IsHeap(v, before)
  {
  }

  lemma HeapPlusLast(v: seq<nat>, before: (nat, nat) -> bool, x: nat)
    requires IsHeap(v, before)
    ensures OrderedAbove(v + [x], before, |v|)
  {
  }

  /** Moving the last element to the root leaves the other positions in order. */
  lemma RootReplaced(v: seq<nat>, before: (nat, nat) -> bool)
    requires |v| > 1 && IsHeap(v, before)
    ensures Ordered(Swapped(v, 0, |v| - 1), |v| - 1, before, 0, 0)
  {
  }

  lemma HeapPrefix(v: seq<nat>, before: (nat, nat) -> bool)
    requires v != [] && (|v| > 1 ==> Ordered(v, |v| - 1, before, 0, -1))
    ensures IsHeap(v[..|v|-1], before)
  {
  }

  lemma RootIsLeastOfAll(v: seq<nat>, before: (nat, nat) -> bool)
    requires StrictWeakOrder(before) && IsHeap(v, before) && v != []
    ensures forall x :: x in v ==> !before(x, v[0])
  {
    forall x | x in v ensures !before(x, v[0]) {
      var j :| 0 <= j < |v| && v[j] == x;
      RootIsLeast(v, before, j);
    }
  }

  lemma OrderedFromHole(v: seq<nat>, n: nat, before: (nat, nat) -> bool, i: nat)
    requires n <= |v| && Ordered(v, n, before, i + 1, -1)
    ensures Ordered(v, n, before, i, i)
  {
  }

  lemma LeavesAreOrdered(v: seq<nat>, before: (nat, nat) -> bool)
    ensures Ordered(v, |v|, before, |v| / 2, -1)
  {
  }

  class Queue {
    const ids: seq<string>
    var values: seq<nat>
    var comparisons: nat

    constructor (values: seq<nat>, ids: seq<string>)
      ensures this.values == values && this.ids == ids && comparisons == 0
    {
      this.values, this.ids, comparisons := values, ids, 0;
    }

    method Less(i: nat, j: nat) returns (less: bool)
      requires i < |values| && j < |values|
      modifies this`comparisons
      ensures less == SymbolBefore(ids)(values[i], values[j])
      ensures comparisons == old(comparisons) + 1
    {
      comparisons := comparisons + 1;
      less := StringOrder.Less(Symbol(ids, values[i]), Symbol(ids, values[j]));
    }

    method Down(start: nat, n: nat)
      requires start < n <= |values|
      requires Ordered(values, n, SymbolBefore(ids), start, start)
      modifies this
      ensures multiset(values) == multiset(old(values)) && |values| == |old(values)| && values[n..] == old(values)[n..]
      ensures Ordered(values, n, SymbolBefore(ids), start, -1)
    {
      hide Ordered, Bridged, StrictWeakOrder, SymbolBefore, Symbol, Parent, Swapped;
      SymbolOrdersAreStrictWeak(ids);
      ghost var before := SymbolBefore(ids);
      SiftDownStarts(values, n, before, start);
      var i: nat := start;
      while true
        invariant start <= i < n <= |values| == |old(values)|
        invariant Ordered(values, n, before, start, i) && Bridged(values, n, before, start, i)
        invariant multiset(values) == multiset(old(values)) && values[n..] == old(values)[n..]
        decreases n - i
      {
        var child := 2 * i + 1;
        if child >= n {
          NoChildren(values, n, before, start, i);
          break;
        }
        if child + 1 < n {
          var right := Less(child + 1, child);
          if right { child := child + 1; }
        }
        ChosenChild(values, n, before, i, child);
        var lower := Less(child, i);
        if !lower {
          OrderBelowChild(values, n, before, start, i, child);
          break;
        }
        SiftDownStep(values, n, before, start, i, child);
        SwappedKeepsTail(values, i, child, n);
        values := Swapped(values, i, child);
        i := child;
      }
    }

    method Up(start: nat)
      requires start < |values| && OrderedAbove(values, SymbolBefore(ids), start)
      modifies this
      ensures IsHeap(values, SymbolBefore(ids)) && multiset(values) == multiset(old(values))
    {
      hide OrderedAbove, IsHeap, StrictWeakOrder, SymbolBefore, Symbol;
      SymbolOrdersAreStrictWeak(ids);
      ghost var before := SymbolBefore(ids);
      var j: nat := start;
      while true
        invariant j < |values| && OrderedAbove(values, before, j)
        invariant multiset(values) == multiset(old(values))
        decreases j
      {
        var i := Parent(j);
        if i == j {
          SiftUpDone(values, before, j);
          break;
        }
        var lower := Less(j, i);
        if !lower {
          SiftUpDone(values, before, j);
          break;
        }
        SiftUpStep(values, before, j);
        values := Swapped(values, i, j);
        j := i;
      }
    }

    method Init()
      modifies this
      ensures IsHeap(values, SymbolBefore(ids)) && multiset(values) == multiset(old(values))
    {
      var n := |values|;
      var i: nat := n / 2;
      LeavesAreOrdered(values, SymbolBefore(ids));
      while i > 0
        invariant i <= n / 2 && |values| == n
        invariant Ordered(values, n, SymbolBefore(ids), i, -1) && multiset(values) == multiset(old(values))
      {
        i := i - 1;
        OrderedFromHole(values, n, SymbolBefore(ids), i);
        Down(i, n);
      }
    }

    method Push(value: nat)
      requires IsHeap(values, SymbolBefore(ids))
      modifies this
      ensures IsHeap(values, SymbolBefore(ids)) && multiset(values) == multiset(old(values)) + multiset{value}
    {
      HeapPlusLast(values, SymbolBefore(ids), value);
      values := values + [value];
      Up(|values| - 1);
    }

    /** Removes a least element. */
    method Pop() returns (value: nat)
      requires values != [] && IsHeap(values, SymbolBefore(ids))
      modifies this
      ensures IsHeap(values, SymbolBefore(ids)) && multiset(old(values)) == multiset(values) + multiset{value}
      ensures forall v :: v in old(values) ==> !SymbolBefore(ids)(v, value)
    {
      hide Ordered, IsHeap, StrictWeakOrder, SymbolBefore, Symbol, Swapped;
      SymbolOrdersAreStrictWeak(ids);
      ghost var before := SymbolBefore(ids);
      RootIsLeastOfAll(values, before);
      var n := |values| - 1;
      if n > 0 { RootReplaced(values, before); }
      SwappedEnds(values);
      values := Swapped(values, 0, n);
      if n > 0 { Down(0, n); }
      HeapPrefix(values, before);
      value := values[n];
      assert values == values[..n] + [value];
      values := values[..n];
    }
  }
}
