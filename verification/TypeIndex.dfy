/** Exact-type lookup through a text key (compiler/graph/build.go: typeIndex, semanticTypeKey). */
module TypeIndex {
  import opened Catalog
  import opened Digraph
  import opened SymbolLists
  import Decimal

  // ----- Identity and text -----------------------------------------------------------------------

  /** The type with every alias replaced by what it stands for. */
  function Erase(t: Type): (r: Type)
    ensures NoAlias(r)
  {
    match t
    case Invalid => Invalid
    case Alias(_, target) => Erase(target)
    case Array(len, elem) => Array(len, Erase(elem))
    case Slice(elem) => Slice(Erase(elem))
    case Pointer(elem) => Pointer(Erase(elem))
    case Map(key, elem) => Map(Erase(key), Erase(elem))
    case Chan(dir, elem) => Chan(dir, Erase(elem))
    case Printed(head, parts) => Printed(head, seq(|parts|, i requires 0 <= i < |parts| => Erase(parts[i])))
  }

  predicate NoAlias(t: Type) {
    match t
    case Invalid => true
    case Alias(_, _) => false
    case Array(_, elem) => NoAlias(elem)
    case Slice(elem) => NoAlias(elem)
    case Pointer(elem) => NoAlias(elem)
    case Map(key, elem) => NoAlias(key) && NoAlias(elem)
    case Chan(_, elem) => NoAlias(elem)
    case Printed(_, parts) => forall i :: 0 <= i < |parts| ==> NoAlias(parts[i])
  }

  /** types.Identical: aliases denote their targets, everything else is structural. */
  predicate Identical(a: Type, b: Type) { Erase(a) == Erase(b) }

  function Join(texts: seq<string>): string {
    if texts == [] then "" else if |texts| == 1 then texts[0] else texts[0] + "," + Join(texts[1..])
  }

  /** Channel directions, numbered as package types numbers them. */
  const SEND_RECV := 0
  const SEND_ONLY := 1
  const RECV_ONLY := 2

  function ChanPrefix(dir: nat): string {
    if dir == SEND_RECV then "chan " else if dir == SEND_ONLY then "chan<- " else "<-chan "
  }

  /** The type printer: an alias prints under its own name. */
  function TypeID(t: Type): string {
    match t
    case Invalid => "<invalid>"
    case Alias(name, _) => name
    case Array(len, elem) => "[" + Decimal.Itoa(len) + "]" + TypeID(elem)
    case Slice(elem) => "[]" + TypeID(elem)
    case Pointer(elem) => "*" + TypeID(elem)
    case Map(key, elem) => "map[" + TypeID(key) + "]" + TypeID(elem)
    case Chan(dir, elem) =>
      if dir == SEND_RECV && elem.Chan? && elem.dir == RECV_ONLY then "chan (" + TypeID(elem) + ")"
      else ChanPrefix(dir) + TypeID(elem)
    case Printed(head, parts) =>
      if parts == [] then head
      else head + "[" + Join(seq(|parts|, i requires 0 <= i < |parts| => TypeID(parts[i]))) + "]"
  }

  /** The index key: composites are unaliased level by level, everything else is printed. */
  function SemanticKey(t: Type): string {
    match t
    case Invalid => "<invalid>"
    case Alias(_, target) => SemanticKey(target)
    case Array(len, elem) => "[" + Decimal.Itoa(len) + "]" + SemanticKey(elem)
    case Slice(elem) => "[]" + SemanticKey(elem)
    case Pointer(elem) => "*" + SemanticKey(elem)
    case Map(key, elem) => "map[" + SemanticKey(key) + "]" + SemanticKey(elem)
    case Chan(dir, elem) => "chan" + Decimal.Itoa(dir) + ":" + SemanticKey(elem)
    case Printed(_, _) => TypeID(t)
  }

  /** The arrow tells the directions of printed channel types apart. */
  lemma ChannelsPrintApart(dir: nat, elem: Type)
    requires dir <= RECV_ONLY
    ensures |TypeID(Chan(dir, elem))| >= 5
    ensures TypeID(Chan(dir, elem))[..5] ==
            if dir == SEND_RECV then "chan " else if dir == SEND_ONLY then "chan<" else "<-cha"
  {
    var s := TypeID(Chan(dir, elem));
    assert |ChanPrefix(dir)| >= 5;
    var inner := dir == SEND_RECV && elem.Chan? && elem.dir == RECV_ONLY;
    assert s[..5] == (if inner then "chan (" else ChanPrefix(dir))[..5];
  }

  // ----- When identical types share a key --------------------------------------------------------

  /** The composite spine ends only in printed types that have no component types. */
  predicate SpineClosed(t: Type) {
    match t
    case Invalid => true
    case Alias(_, target) => SpineClosed(target)
    case Array(_, elem) => SpineClosed(elem)
    case Slice(elem) => SpineClosed(elem)
    case Pointer(elem) => SpineClosed(elem)
    case Map(key, elem) => SpineClosed(key) && SpineClosed(elem)
    case Chan(_, elem) => SpineClosed(elem)
    case Printed(_, parts) => parts == []
  }

  lemma {:induction false} KeyOfErased(t: Type)
    requires SpineClosed(t)
    ensures SemanticKey(t) == SemanticKey(Erase(t))
  {
    match t
    case Invalid =>
    case Alias(_, target) => KeyOfErased(target);
    case Array(_, elem) => KeyOfErased(elem);
    case Slice(elem) => KeyOfErased(elem);
    case Pointer(elem) => KeyOfErased(elem);
    case Map(key, elem) => KeyOfErased(key); KeyOfErased(elem);
    case Chan(_, elem) => KeyOfErased(elem);
    case Printed(_, _) =>
  }

  lemma {:induction false} SpineOfErased(t: Type)
    ensures SpineClosed(t) == SpineClosed(Erase(t))
  {
    match t
    case Invalid =>
    case Alias(_, target) => SpineOfErased(target);
    case Array(_, elem) => SpineOfErased(elem);
    case Slice(elem) => SpineOfErased(elem);
    case Pointer(elem) => SpineOfErased(elem);
    case Map(key, elem) => SpineOfErased(key); SpineOfErased(elem);
    case Chan(_, elem) => SpineOfErased(elem);
    case Printed(_, _) =>
  }

  /** The same type with one printed component written under an alias. */
  function Respelled(t: Type, name: string): (r: Type)
    requires !SpineClosed(t)
    ensures Erase(r) == Erase(t)
  {
    match t
    case Alias(_, target) => Respelled(target, name)
    case Array(len, elem) => Array(len, Respelled(elem, name))
    case Slice(elem) => Slice(Respelled(elem, name))
    case Pointer(elem) => Pointer(Respelled(elem, name))
    case Map(key, elem) => if SpineClosed(key) then Map(key, Respelled(elem, name)) else Map(Respelled(key, name), elem)
    case Chan(dir, elem) => Chan(dir, Respelled(elem, name))
    case Printed(head, parts) =>
      var r := Printed(head, parts[0 := Alias(name, parts[0])]);
      assert forall i :: 0 <= i < |parts| ==> Erase(r.parts[i]) == Erase(parts[i]);
      r
  }

  lemma {:induction false} RespelledKeyLength(t: Type, a: string, b: string)
    requires !SpineClosed(t)
    ensures |SemanticKey(Respelled(t, a))| - |a| == |SemanticKey(Respelled(t, b))| - |b|
  {
    match t
    case Alias(_, target) => RespelledKeyLength(target, a, b);
    case Array(_, elem) => RespelledKeyLength(elem, a, b);
    case Slice(elem) => RespelledKeyLength(elem, a, b);
    case Pointer(elem) => RespelledKeyLength(elem, a, b);
    case Map(key, elem) =>
      if SpineClosed(key) { RespelledKeyLength(elem, a, b); } else { RespelledKeyLength(key, a, b); }
    case Chan(_, elem) => RespelledKeyLength(elem, a, b);
    case Printed(head, parts) =>
      var pa, pb := parts[0 := Alias(a, parts[0])], parts[0 := Alias(b, parts[0])];
      var ta := seq(|parts|, i requires 0 <= i < |parts| => TypeID(pa[i]));
      var tb := seq(|parts|, i requires 0 <= i < |parts| => TypeID(pb[i]));
      assert ta[0] == a && tb[0] == b;
      assert ta[1..] == tb[1..];
      assert SemanticKey(Printed(head, pa)) == head + "[" + Join(ta) + "]";
      assert SemanticKey(Printed(head, pb)) == head + "[" + Join(tb) + "]";
  }

  /**
   * A type shares its key with every identical type exactly when its spine is closed: aliases inside type
   * arguments, signatures and structs are printed by name and change the key.
   */
  lemma KeyAgreesIffSpineClosed(t: Type)
    ensures SpineClosed(t) <==> forall u :: Identical(t, u) ==> SemanticKey(u) == SemanticKey(t)
  {
    if SpineClosed(t) {
      forall u | Identical(t, u) ensures SemanticKey(u) == SemanticKey(t) {
        SpineOfErased(t);
        SpineOfErased(u);
        KeyOfErased(t);
        KeyOfErased(u);
      }
    } else {
      RespelledKeyLength(t, "A", "AA");
      var u, w := Respelled(t, "A"), Respelled(t, "AA");
      assert Identical(t, u) && Identical(t, w);
      assert SemanticKey(u) != SemanticKey(w);
    }
  }

  /** No alias is written inside a printed type: none among type arguments, in a signature or in a struct. */
  predicate PrintsPlain(t: Type) {
    match t
    case Invalid => true
    case Alias(_, target) => PrintsPlain(target)
    case Array(_, elem) => PrintsPlain(elem)
    case Slice(elem) => PrintsPlain(elem)
    case Pointer(elem) => PrintsPlain(elem)
    case Map(key, elem) => PrintsPlain(key) && PrintsPlain(elem)
    case Chan(_, elem) => PrintsPlain(elem)
    case Printed(_, parts) => forall i :: 0 <= i < |parts| ==> NoAlias(parts[i])
  }

  lemma {:induction false} EraseKeepsPlain(t: Type)
    requires NoAlias(t)
    ensures Erase(t) == t
  {
    match t
    case Invalid =>
    case Array(_, elem) => EraseKeepsPlain(elem);
    case Slice(elem) => EraseKeepsPlain(elem);
    case Pointer(elem) => EraseKeepsPlain(elem);
    case Map(key, elem) => EraseKeepsPlain(key); EraseKeepsPlain(elem);
    case Chan(_, elem) => EraseKeepsPlain(elem);
    case Printed(_, parts) =>
      forall i | 0 <= i < |parts| ensures Erase(parts[i]) == parts[i] { EraseKeepsPlain(parts[i]); }
  }

  lemma {:induction false} KeyOfPlain(t: Type)
    requires PrintsPlain(t)
    ensures SemanticKey(t) == SemanticKey(Erase(t))
  {
    match t
    case Invalid =>
    case Alias(_, target) => KeyOfPlain(target);
    case Array(_, elem) => KeyOfPlain(elem);
    case Slice(elem) => KeyOfPlain(elem);
    case Pointer(elem) => KeyOfPlain(elem);
    case Map(key, elem) => KeyOfPlain(key); KeyOfPlain(elem);
    case Chan(_, elem) => KeyOfPlain(elem);
    case Printed(_, parts) => EraseKeepsPlain(t);
  }

  // ----- The index -------------------------------------------------------------------------------

  ghost predicate KeyAmong(types: seq<Type>, key: string) { exists t :: t in types && SemanticKey(t) == key }

  ghost predicate IdenticalAmong(types: seq<Type>, required: Type) { exists t :: t in types && Identical(required, t) }

  lemma KeyAmongAppend(types: seq<Type>, t: Type, key: string)
    ensures KeyAmong(types + [t], key) <==> KeyAmong(types, key) || SemanticKey(t) == key
  {
    if KeyAmong(types, key) {
      var u :| u in types && SemanticKey(u) == key;
      assert u in types + [t];
    }
    if SemanticKey(t) == key { assert t in types + [t]; }
  }

  /** Provider i exposes a type with this key. */
  ghost predicate Keyed(providers: seq<Provider>, key: string, i: nat) {
    i < |providers| && KeyAmong(providers[i].Exposed(), key)
  }

  /** The linear scan: provider i exposes a type identical to the requested one. */
  ghost predicate Matches(providers: seq<Provider>, required: Type, i: nat) {
    i < |providers| && IdenticalAmong(providers[i].Exposed(), required)
  }

  ghost predicate Listed(index: map<string, seq<nat>>, key: string, i: nat) { key in index && i in index[key] }

  function Bucket(index: map<string, seq<nat>>, key: string): seq<nat> { if key in index then index[key] else [] }

  function AddToIndex(index: map<string, seq<nat>>, key: string, i: nat): (r: map<string, seq<nat>>)
    ensures forall k: string, j: nat :: Listed(r, k, j) <==> Listed(index, k, j) || (k == key && j == i)
  {
    var r := index[key := Bucket(index, key) + [i]];
    assert forall k: string, j: nat :: Listed(r, k, j) <==> Listed(index, k, j) || (k == key && j == i);
    r
  }

  method AddKeys(index: map<string, seq<nat>>, providers: seq<Provider>, i: nat) returns (result: map<string, seq<nat>>)
    requires i < |providers|
    ensures forall k: string, j: nat :: Listed(result, k, j)
                                        <==> Listed(index, k, j) || (j == i && Keyed(providers, k, i))
  {
    var exposed := providers[i].Exposed();
    result := AddToIndex(index, SemanticKey(providers[i].output), i);
    assert exposed[..1] == [] + [providers[i].output];
    forall k ensures KeyAmong(exposed[..1], k) <==> k == SemanticKey(providers[i].output) {
      KeyAmongAppend([], providers[i].output, k);
    }
    for b := 0 to |providers[i].interfaces|
      invariant forall k: string, j: nat :: Listed(result, k, j) <==>
                  Listed(index, k, j) || (j == i && KeyAmong(exposed[..b+1], k))
    {
      var binding := providers[i].interfaces[b];
      ghost var had, grown := exposed[..b+1], exposed[..b+2];
      assert grown == had + [binding];
      forall k ensures KeyAmong(grown, k) <==> KeyAmong(had, k) || SemanticKey(binding) == k {
        KeyAmongAppend(had, binding, k);
      }
      result := AddToIndex(result, SemanticKey(binding), i);
    }
    assert exposed[..|providers[i].interfaces|+1] == exposed;
  }

  /** Every exposed type is filed under its key; each bucket is sorted by symbol without repetitions. */
  method BuildTypeIndex(providers: seq<Provider>) returns (index: map<string, seq<nat>>)
    requires NoDuplicates(SymbolIDs(providers))
    ensures forall k: string, i: nat :: Listed(index, k, i) <==> Keyed(providers, k, i)
    ensures forall k :: k in index ==> Ascending(index[k], SymbolIDs(providers))
  {
    index := map[];
    for i := 0 to |providers|
      invariant forall k: string, j: nat :: Listed(index, k, j) <==> j < i && Keyed(providers, k, j)
    {
      index := AddKeys(index, providers, i);
    }
    var pending := index.Keys;
    while pending != {}
      invariant pending <= index.Keys
      invariant forall k: string, i: nat :: Listed(index, k, i) <==> Keyed(providers, k, i)
      invariant forall k :: k in index && k !in pending ==> Ascending(index[k], SymbolIDs(providers))
    {
      var key :| key in pending;
      forall v | v in index[key] ensures v < |providers| { assert Listed(index, key, v); }
      var list := SortedUnique(index[key], SymbolIDs(providers));
      ghost var before := index;
      index := index[key := list];
      forall k: string, i: nat ensures Listed(index, k, i) <==> Listed(before, k, i) {}
      pending := pending - {key};
    }
  }

  /** Whether the provider exposes a type identical to the requested one. */
  method Exposes(item: Provider, required: Type) returns (found: bool)
    ensures found <==> IdenticalAmong(item.Exposed(), required)
  {
    if Identical(required, item.output) {
      assert item.Exposed()[0] == item.output;
      return true;
    }
    for b := 0 to |item.interfaces|
      invariant forall j :: 0 <= j < b ==> !Identical(required, item.interfaces[j])
    {
      if Identical(required, item.interfaces[b]) {
        assert item.Exposed()[b+1] == item.interfaces[b];
        return true;
      }
    }
    forall t | t in item.Exposed() ensures !Identical(required, t) {
      var j :| 0 <= j < |item.Exposed()| && item.Exposed()[j] == t;
      if j > 0 { assert t == item.interfaces[j-1]; }
    }
    return false;
  }

  /** What lookup selects: a scan hit that is also filed under the requested key. */
  ghost predicate Selected(providers: seq<Provider>, required: Type, i: nat) {
    Matches(providers, required, i) && Keyed(providers, SemanticKey(required), i)
  }

  method Lookup(index: map<string, seq<nat>>, required: Type, providers: seq<Provider>) returns (result: seq<nat>)
    requires NoDuplicates(SymbolIDs(providers))
    requires forall k: string, i: nat :: Listed(index, k, i) <==> Keyed(providers, k, i)
    ensures Ascending(result, SymbolIDs(providers))
    ensures forall i :: i in result <==> Selected(providers, required, i)
  {
    var key := SemanticKey(required);
    var bucket := Bucket(index, key);
    forall i
      ensures i in bucket <==> Keyed(providers, key, i)
    {
      assert Listed(index, key, i) <==> Keyed(providers, key, i);
    }
    var found := [];
    for k := 0 to |bucket|
      invariant forall i :: i in found <==> i in bucket[..k] && Matches(providers, required, i)
    {
      var candidate := bucket[k];
      assert candidate in bucket;
      assert bucket[..k+1] == bucket[..k] + [candidate];
      var hit := Exposes(providers[candidate], required);
      if hit { found := found + [candidate]; }
    }
    assert bucket[..|bucket|] == bucket;
    result := SortedUnique(found, SymbolIDs(providers));
  }

  /** The provider's types that are identical to the requested one are written without aliases inside printed types. */
  ghost predicate ExposesPlainly(providers: seq<Provider>, required: Type, i: nat) {
    i < |providers| ==> forall t :: t in providers[i].Exposed() && Identical(required, t) ==> PrintsPlain(t)
  }

  /**
   * The index loses nothing: lookup is the linear scan for a request whose spine is closed, whatever the catalog,
   * and for any other request when it and what it should find are written plainly.
   */
  lemma LookupIsTheScan(providers: seq<Provider>, required: Type, i: nat)
    requires SpineClosed(required) || (PrintsPlain(required) && ExposesPlainly(providers, required, i))
    ensures Selected(providers, required, i) <==> Matches(providers, required, i)
  {
    if Matches(providers, required, i) {
      var t :| t in providers[i].Exposed() && Identical(required, t);
      if SpineClosed(required) {
        KeyAgreesIffSpineClosed(required);
      } else {
        KeyOfPlain(required);
        KeyOfPlain(t);
      }
      assert SemanticKey(t) == SemanticKey(required);
    }
  }

  /** Over all catalogs a closed spine is needed too: any other request misses an identical type in some catalog. */
  lemma LookupIsTheScanIffSpineClosed(required: Type, template: Provider)
    ensures SpineClosed(required) <==>
            forall providers, i :: Matches(providers, required, i) ==> Selected(providers, required, i)
  {
    if SpineClosed(required) {
      forall providers, i | Matches(providers, required, i) ensures Selected(providers, required, i) {
        LookupIsTheScan(providers, required, i);
      }
    } else {
      KeyAgreesIffSpineClosed(required);
      var u :| Identical(required, u) && SemanticKey(u) != SemanticKey(required);
      var item := template.(output := u, interfaces := []);
      assert item.Exposed() == [u];
      var providers := [item];
      assert u in [u];
      assert Matches(providers, required, 0) && !Selected(providers, required, 0);
    }
  }

  /**
   * A concrete miss: a bean of Box[UserID], UserID an alias of string and so not plain, is not found for
   * Box[string].
   */
  lemma AliasInTypeArgumentIsMissed(template: Provider)
    ensures var text := Printed("string", []);
            var bean := template.(output := Printed("Box", [Alias("UserID", text)]), interfaces := []);
            && PrintsPlain(Printed("Box", [text])) && !PrintsPlain(bean.output)
            && Matches([bean], Printed("Box", [text]), 0) && !Selected([bean], Printed("Box", [text]), 0)
  {
    var text := Printed("string", []);
    var declared, required := Printed("Box", [Alias("UserID", text)]), Printed("Box", [text]);
    var bean := template.(output := declared, interfaces := []);
    assert bean.Exposed() == [declared];
    assert Erase(declared).parts == Erase(required).parts;
    assert declared in [declared];
    BoxKey(declared.parts[0]);
    BoxKey(text);
    assert SemanticKey(declared)[4] != SemanticKey(required)[4];
    assert !NoAlias(declared.parts[0]);
  }

  lemma BoxKey(part: Type)
    ensures SemanticKey(Printed("Box", [part])) == "Box[" + TypeID(part) + "]"
  {
    PrintedKey("Box", part);
    assert "Box" + "[" == "Box[";
  }

  lemma PrintedKey(head: string, part: Type)
    ensures SemanticKey(Printed(head, [part])) == head + "[" + TypeID(part) + "]"
  {
    var t := Printed(head, [part]);
    var texts := seq(|t.parts|, i requires 0 <= i < |t.parts| => TypeID(t.parts[i]));
    assert texts == [TypeID(part)];
    assert TypeID(t) == head + "[" + Join(texts) + "]";
  }
}
