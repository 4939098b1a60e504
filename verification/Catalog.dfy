/** Go types and provider records as the graph builder sees them (compiler/provider/provider.go). */
module Catalog {
  datatype Option<+T> = None | Some(value: T)

  /**
   * A Go type. `Printed` is every form the graph's key leaves to the type printer: basic and named
   * types, instances with type arguments, signatures, structs. Its parts are the component types printed
   * inside it.
   */
  datatype Type =
    | Invalid
    | Alias(name: string, target: Type)
    | Array(len: nat, elem: Type)
    | Slice(elem: Type)
    | Pointer(elem: Type)
    | Map(key: Type, elem: Type)
    | Chan(dir: nat, elem: Type)
    | Printed(head: string, parts: seq<Type>)

  datatype Scope = Singleton | Prototype | Request | Session

  datatype DependencyKind = KindSingle | KindSlice | KindMap | KindOptional | KindLazy | KindProvider

  datatype Source = Bean | Starter | AutoConfiguration | Stereotype | Configuration | Event | Logging

  datatype Dependency = Dependency(
    index: nat,
    name: string,
    typ: Type,
    element: Option<Type>,
    qualifiers: seq<string>,
    kind: DependencyKind)
  {
    /** The bean type this input selects: the element type of a wrapper, else the type itself. */
    function MatchType(): Type { if element.Some? then element.value else typ }
  }

  datatype Provider = Provider(
    symbolID: string,
    name: string,
    aliases: seq<string>,
    qualifiers: seq<string>,
    primary: bool,
    fallback: bool,
    order: int,
    scope: Scope,
    source: Source,
    output: Type,
    interfaces: seq<Type>,
    dependencies: seq<Dependency>)
  {
    /** Every type under which the provider can be injected. */
    function Exposed(): seq<Type> { [output] + interfaces }
  }

  function SymbolIDs(providers: seq<Provider>): (ids: seq<string>)
    ensures |ids| == |providers| && forall i :: 0 <= i < |ids| ==> ids[i] == providers[i].symbolID
  {
    seq(|providers|, i requires 0 <= i < |providers| => providers[i].symbolID)
  }
}
