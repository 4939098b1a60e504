/** Schemas of Go types for an OpenAPI 3.1.0 document (compiler/generate/openapi.go). */
module OpenApi {
  import opened Catalog
  import opened StringLists
  import Digraph
  import Sorting

  datatype Kind = Bool | Integer(bits: nat) | Float | Text | Opaque

  /** A Go type as the schema builder switches on it; a named type is a label into the environment. */
  datatype GoType =
    | Aliased(target: GoType)
    | PointerTo(elem: GoType)
    | Named(key: string)
    | Basic(kind: Kind)
    | ArrayOf(elem: GoType)
    | SliceOf(elem: GoType)
    | MapTo(elem: GoType)
    | Struct(fields: seq<Field>)
    | Other(text: string)

  datatype Field = Field(name: string, exported: bool, tag: Option<string>, typ: GoType)

  datatype NamedType = NamedType(package: string, name: string, underlying: GoType)

  /** The named types by qualified label, and the ten hexadecimal digits a label hashes to. */
  datatype Types = Types(named: map<string, NamedType>, hash: string -> string)

  datatype Schema = Schema(
    ref: string, typ: string, format: string, description: string,
    properties: map<string, Schema>, required: seq<string>,
    items: Option<Schema>, additional: Option<Schema>, anyOf: seq<Schema>)

  const EMPTY := Schema("", "", "", "", map[], [], None, None, [])

  function Plain(typ: string, format: string): Schema { EMPTY.(typ := typ, format := format) }

  // ----- Leaves ----------------------------------------------------------------------------------

  function Unalias(t: GoType): (r: GoType)
    ensures !r.Aliased?
  {
    if t.Aliased? then Unalias(t.target) else t
  }

  function IntegerFormat(kind: Kind): string { if kind.Integer? && kind.bits in {8, 16, 32} then "int32" else "int64" }

  function BasicSchema(kind: Kind): Schema {
    match kind
    case Bool => Plain("boolean", "")
    case Integer(_) => Plain("integer", IntegerFormat(kind))
    case Float => Plain("number", "double")
    case Text => Plain("string", "")
    case Opaque => Plain("object", "")
  }

  /** The part before the first comma, and the options after it. */
  function SplitComma(s: string): (parts: seq<string>)
    ensures parts != []
  {
    if s == "" then [""]
    else if s[0] == ',' then [""] + SplitComma(s[1..])
    else var rest := SplitComma(s[1..]); [[s[0]] + rest[0]] + rest[1..]
  }

  /** A field's JSON name and whether it is required; None when JSON leaves it out. */
  function JsonField(field: Field): Option<(string, bool)> {
    if !field.exported then None
    else if field.tag.None? then Some((field.name, true))
    else
      var parts := SplitComma(field.tag.value);
      if parts[0] == "-" then None
      else Some((if parts[0] == "" then field.name else parts[0],
                 "omitempty" !in parts[1..] && "omitzero" !in parts[1..]))
  }

  function IsNameChar(c: char): bool { 'A' <= c <= 'Z' || 'a' <= c <= 'z' || '0' <= c <= '9' || c == '_' }

  /** Every run of other characters becomes one underscore. */
  function Sanitized(s: string): (r: string)
    ensures forall i :: 0 <= i < |r| ==> IsNameChar(r[i])
    decreases |s|
  {
    if s == "" then ""
    else if IsNameChar(s[0]) then [s[0]] + Sanitized(s[1..])
    else "_" + Sanitized(SkipRun(s))
  }

  function SkipRun(s: string): (r: string)
    ensures |r| <= |s| && (s != "" && !IsNameChar(s[0]) ==> |r| < |s|)
  {
    if s != "" && !IsNameChar(s[0]) then SkipRun(s[1..]) else s
  }

  function IsTime(n: NamedType): bool { n.package == "time" && (n.name == "Time" || n.name == "Duration") }

  function ComponentName(types: Types, key: string): string
    requires key in types.named
  {
    Sanitized(types.named[key].name) + "_" + types.hash(key)
  }

  function RefTo(name: string): string { "#/components/schemas/" + name }

  // ----- The structure a type stands for ---------------------------------------------------------

  /** The named types a type shows, not looking inside them. */
  function Mentions(types: Types, t: GoType): set<string>
    decreases t
  {
    match t
    case Aliased(target) => Mentions(types, target)
    case PointerTo(elem) => Mentions(types, elem)
    case Named(key) => if key in types.named && IsTime(types.named[key]) then {} else {key}
    case ArrayOf(elem) => Mentions(types, elem)
    case SliceOf(elem) => Mentions(types, elem)
    case MapTo(elem) => Mentions(types, elem)
    case Struct(fields) => FieldMentions(types, fields)
    case Basic(_) => {}
    case Other(_) => {}
  }

  function FieldMentions(types: Types, fields: seq<Field>): set<string>
    decreases fields
  {
    if fields == [] then {}
    else
      var last := fields[|fields|-1];
      if JsonField(last).None? then FieldMentions(types, fields[..|fields|-1])
      else FieldMentions(types, fields[..|fields|-1]) + Mentions(types, last.typ)
  }

  /** Every key that can be met is declared. */
  ghost predicate Complete(types: Types) {
    forall key :: key in types.named ==> Mentions(types, types.named[key].underlying) <= types.named.Keys
  }

  /** The schema of a type, with every named type as a reference. */
  function Shape(types: Types, t: GoType): Schema
    requires Mentions(types, t) <= types.named.Keys
    decreases t
  {
    match t
    case Aliased(target) => Shape(types, target)
    case PointerTo(elem) => EMPTY.(anyOf := [Shape(types, elem), Plain("null", "")])
    case Named(key) =>
      assert key in types.named;
      if IsTime(types.named[key]) then
        if types.named[key].name == "Time" then Plain("string", "date-time") else Plain("string", "duration")
      else EMPTY.(ref := RefTo(ComponentName(types, key)))
    case Basic(kind) => BasicSchema(kind)
    case ArrayOf(elem) => Plain("array", "").(items := Some(Shape(types, elem)))
    case SliceOf(elem) => Plain("array", "").(items := Some(Shape(types, elem)))
    case MapTo(elem) => Plain("object", "").(additional := Some(Shape(types, elem)))
    case Struct(fields) =>
      Plain("object", "").(properties := Properties(types, fields), required := SortStrings(RequiredNames(fields)))
    case Other(text) => Plain("object", "").(description := "Schema for " + text)
  }

  function RequiredNames(fields: seq<Field>): seq<string> {
    if fields == [] then []
    else
      var json := JsonField(fields[|fields|-1]);
      if json.Some? && json.value.1 then RequiredNames(fields[..|fields|-1]) + [json.value.0]
      else RequiredNames(fields[..|fields|-1])
  }

  /** Two required exported fields with one JSON name. */
  predicate RequiredTwice(fields: seq<Field>) {
    exists i, j :: 0 <= i < j < |fields| && RequiredName(fields[i]).Some?
                   && RequiredName(fields[i]) == RequiredName(fields[j])
  }

  function RequiredName(field: Field): Option<string> {
    var json := JsonField(field);
    if json.Some? && json.value.1 then Some(json.value.0) else None
  }

  lemma {:induction false} RequiredNamesOf(fields: seq<Field>, name: string)
    ensures name in RequiredNames(fields) <==> exists i :: 0 <= i < |fields| && RequiredName(fields[i]) == Some(name)
  {
    hide JsonField;
    if fields != [] {
      var init := fields[..|fields|-1];
      RequiredNamesOf(init, name);
      assert forall i :: 0 <= i < |init| ==> init[i] == fields[i];
    }
  }

  lemma {:induction false} RequiredNamesUniqueIff(fields: seq<Field>)
    ensures Digraph.NoDuplicates(RequiredNames(fields)) <==> !RequiredTwice(fields)
  {
    hide JsonField;
    if fields != [] {
      var init, last := fields[..|fields|-1], RequiredName(fields[|fields|-1]);
      RequiredNamesUniqueIff(init);
      assert forall i :: 0 <= i < |init| ==> init[i] == fields[i];
      if last.Some? {
        RequiredNamesOf(init, last.value);
        AppendedIsNew(RequiredNames(init), last.value);
      }
      if RequiredTwice(init) {
        var i, j :| 0 <= i < j < |init| && RequiredName(init[i]).Some?
                    && RequiredName(init[i]) == RequiredName(init[j]);
        assert fields[i] == init[i] && fields[j] == init[j];
      }
    }
  }

  lemma AppendedIsNew(names: seq<string>, name: string)
    ensures Digraph.NoDuplicates(names + [name]) <==> Digraph.NoDuplicates(names) && name !in names
  {
    var all := names + [name];
    if Digraph.NoDuplicates(all) {
      forall i, j | 0 <= i < j < |names| ensures names[i] != names[j] { assert all[i] != all[j]; }
      forall i | 0 <= i < |names| ensures names[i] != name { assert all[i] != all[|names|]; }
    }
  }

  /** JSON Schema wants the required names unique; they are exactly when no two required fields share a JSON name. */
  lemma RequiredIsUniqueIff(types: Types, fields: seq<Field>)
    requires FieldMentions(types, fields) <= types.named.Keys
    ensures Digraph.NoDuplicates(Shape(types, Struct(fields)).required) <==> !RequiredTwice(fields)
  {
    RequiredNamesUniqueIff(fields);
    var names, sorted := RequiredNames(fields), SortStrings(RequiredNames(fields));
    if Digraph.NoDuplicates(names) { Sorting.NoDuplicatesPermuted(sorted, names); }
    if Digraph.NoDuplicates(sorted) { Sorting.NoDuplicatesPermuted(names, sorted); }
  }

  /** Two exported fields tagged with one JSON name: the name is listed as required twice. */
  lemma RequiredNameTwice(types: Types, text: GoType)
    requires Mentions(types, text) <= types.named.Keys
    ensures var fields := [Field("First", true, Some("name"), text), Field("Second", true, Some("name"), text)];
            FieldMentions(types, fields) <= types.named.Keys
            && Shape(types, Struct(fields)).required == ["name", "name"]
  {
    var first, second := Field("First", true, Some("name"), text), Field("Second", true, Some("name"), text);
    hide RequiredNames, FieldMentions, Mentions, Properties, SortStrings;
    NameIsWhole("name");
    assert JsonField(first) == Some(("name", true)) && JsonField(second) == Some(("name", true));
    RequiredPair(first, second, "name");
    TwiceSorted("name");
    MentionsPair(types, first, second);
  }

  lemma RequiredPair(first: Field, second: Field, name: string)
    requires JsonField(first) == Some((name, true)) == JsonField(second)
    ensures RequiredNames([first, second]) == [name, name]
  {
    hide JsonField;
    assert [first, second][..1] == [first] && [first][..0] == [];
    assert RequiredNames([first]) == [name];
  }

  lemma MentionsPair(types: Types, first: Field, second: Field)
    requires JsonField(first).Some? && JsonField(second).Some?
    ensures FieldMentions(types, [first, second]) == Mentions(types, first.typ) + Mentions(types, second.typ)
  {
    hide JsonField, Mentions;
    assert [first, second][..1] == [first] && [first][..0] == [];
    assert FieldMentions(types, [first]) == FieldMentions(types, []) + Mentions(types, first.typ);
  }

  lemma {:induction false} NameIsWhole(s: string)
    requires ',' !in s
    ensures SplitComma(s) == [s]
  {
    if s != "" {
      NameIsWhole(s[1..]);
      assert [s[0]] + s[1..] == s;
    }
  }

  lemma TwiceSorted(name: string)
    ensures SortStrings([name, name]) == [name, name]
  {
    var r := SortStrings([name, name]);
    assert |multiset(r)| == |r|;
    Sorting.SameElements(r, [name, name]);
    assert r[0] in r && r[1] in r;
  }

  /** The property a JSON name ends up with is that of the last field of this name. */
  function Properties(types: Types, fields: seq<Field>): map<string, Schema>
    requires FieldMentions(types, fields) <= types.named.Keys
    decreases fields
  {
    if fields == [] then map[]
    else
      var last := fields[|fields|-1];
      var json := JsonField(last);
      var before := Properties(types, fields[..|fields|-1]);
      if json.None? then before else before[json.value.0 := Shape(types, last.typ)]
  }

  // ----- Component names -------------------------------------------------------------------------

  const HASH_LENGTH := 10

  /** The hash has ten hexadecimal digits and tells the declared labels apart. */
  ghost predicate HashTellsApart(types: Types) {
    && (forall key {:trigger types.hash(key)} :: |types.hash(key)| == HASH_LENGTH
                                                 && forall i :: 0 <= i < HASH_LENGTH ==> IsHex(types.hash(key)[i]))
    && (forall a, b :: a in types.named && b in types.named && types.hash(a) == types.hash(b) ==> a == b)
  }

  predicate IsHex(c: char) { '0' <= c <= '9' || 'a' <= c <= 'f' }

  lemma SuffixesAgree(a: string, x: string, b: string, y: string)
    requires a + x == b + y && |x| == |y|
    ensures x == y && a == b
  {
    assert x == (a + x)[|a|..] && y == (b + y)[|b|..];
    assert a == (a + x)[..|a|] && b == (b + y)[..|b|];
  }

  /** Component names are distinct, legal keys (section 4.8.7 of OpenAPI 3.1.0), and none is the problem schema's. */
  lemma ComponentNamesAreDistinct(types: Types, a: string, b: string)
    requires HashTellsApart(types) && a in types.named && b in types.named
    ensures ComponentName(types, a) == ComponentName(types, b) ==> a == b
    ensures ComponentName(types, a) != "SpiceProblem"
    ensures forall i :: 0 <= i < |ComponentName(types, a)| ==> IsNameChar(ComponentName(types, a)[i])
  {
    var name := ComponentName(types, a);
    var stem := Sanitized(types.named[a].name) + "_";
    if name == ComponentName(types, b) {
      SuffixesAgree(stem, types.hash(a), Sanitized(types.named[b].name) + "_", types.hash(b));
    }
    assert name[|stem| - 1] == '_';
    assert "SpiceProblem"[|"SpiceProblem"| - HASH_LENGTH - 1] != '_';
    assert |name| == |stem| + HASH_LENGTH;
  }

  // ----- Reachable named types -------------------------------------------------------------------

  /** One type's structure shows the other. */
  ghost predicate Shows(types: Types, a: string, b: string) {
    a in types.named && b in Mentions(types, types.named[a].underlying)
  }

  ghost predicate IsTrail(types: Types, trail: seq<string>) {
    forall i, j :: 0 <= i && j == i + 1 && j < |trail| ==> Shows(types, trail[i], trail[j])
  }

  /** Some chain of mentions leads from the roots to the type. */
  ghost predicate Reaches(types: Types, roots: set<string>, key: string) {
    exists trail :: |trail| > 0 && IsTrail(types, trail) && trail[0] in roots && trail[|trail|-1] == key
  }

  lemma ReachesItself(types: Types, roots: set<string>, key: string)
    requires key in roots
    ensures Reaches(types, roots, key)
  {
    var trail := [key];
    assert |trail| > 0 && IsTrail(types, trail) && trail[0] in roots && trail[|trail|-1] == key;
  }

  lemma ReachesThrough(types: Types, roots: set<string>, key: string, target: string)
    requires key in roots && key in types.named && Reaches(types, Mentions(types, types.named[key].underlying), target)
    ensures Reaches(types, roots, target)
  {
    var inner :| |inner| > 0 && IsTrail(types, inner) && inner[0] in Mentions(types, types.named[key].underlying)
              && inner[|inner|-1] == target;
    var trail := [key] + inner;
    forall i, j | 0 <= i && j == i + 1 && j < |trail| ensures Shows(types, trail[i], trail[j]) {
      if i > 0 { assert trail[i] == inner[i-1] && trail[j] == inner[j-1]; }
    }
    assert |trail| > 0 && IsTrail(types, trail) && trail[0] in roots && trail[|trail|-1] == target;
  }

  lemma ReachesMore(types: Types, few: set<string>, many: set<string>, key: string)
    requires few <= many && Reaches(types, few, key)
    ensures Reaches(types, many, key)
  {
    var trail :| |trail| > 0 && IsTrail(types, trail) && trail[0] in few && trail[|trail|-1] == key;
    assert trail[0] in many;
  }

  /** A set that holds the roots and everything its members mention holds everything reachable. */
  lemma {:induction false} TrailStaysInside(types: Types, inside: set<string>, trail: seq<string>)
    requires forall key :: key in inside ==>
               key in types.named && Mentions(types, types.named[key].underlying) <= inside
    requires |trail| > 0 && IsTrail(types, trail) && trail[0] in inside
    ensures trail[|trail|-1] in inside
    decreases |trail|
  {
    if |trail| > 1 {
      var rest := trail[1..];
      assert Shows(types, trail[0], trail[1]);
      forall i, j | 0 <= i && j == i + 1 && j < |rest| ensures Shows(types, rest[i], rest[j]) {
        assert rest[i] == trail[i+1] && rest[j] == trail[j+1];
      }
      TrailStaysInside(types, inside, rest);
    }
  }

  lemma ReachableIsInside(types: Types, inside: set<string>, roots: set<string>, key: string)
    requires forall key :: key in inside ==>
               key in types.named && Mentions(types, types.named[key].underlying) <= inside
    requires roots <= inside && Reaches(types, roots, key)
    ensures key in inside
  {
    var trail :| |trail| > 0 && IsTrail(types, trail) && trail[0] in roots && trail[|trail|-1] == key;
    TrailStaysInside(types, inside, trail);
  }

  // ----- The builder -----------------------------------------------------------------------------

  function ProblemSchema(): Schema {
    Plain("object", "").(
      properties := map["type" := Plain("string", "uri-reference"), "title" := Plain("string", ""),
                        "status" := Plain("integer", "int32"),
                        "detail" := Plain("string", ""), "instance" := Plain("string", "uri-reference")],
      required := ["type", "title", "status"])
  }

  /** A finished component has the structure of its type, and all it mentions is at least begun. */
  ghost predicate Finished(types: Types, components: map<string, Schema>, begun: set<string>, key: string) {
    && key in types.named && Mentions(types, types.named[key].underlying) <= begun
    && Mentions(types, types.named[key].underlying) <= types.named.Keys
    && ComponentName(types, key) in components
    && components[ComponentName(types, key)] == Shape(types, types.named[key].underlying)
  }

  /** Exactly the problem schema and the begun types have a component. */
  ghost predicate KeysAre(types: Types, components: map<string, Schema>, begun: set<string>) {
    && begun <= types.named.Keys
    && (forall key :: key in begun ==> ComponentName(types, key) in components)
    && (forall name :: name in components ==>
          name == "SpiceProblem" || exists key :: key in begun && ComponentName(types, key) == name)
    && "SpiceProblem" in components && components["SpiceProblem"] == ProblemSchema()
  }

  ghost predicate Sound(types: Types, components: map<string, Schema>, done: set<string>, open: set<string>) {
    && done !! open && KeysAre(types, components, done + open)
    && forall key :: key in done ==> Finished(types, components, done + open, key)
  }

  class Builder {
    const types: Types
    var components: map<string, Schema>
    ghost var done: set<string>
    ghost var open: set<string>

    constructor (types: Types)
      ensures this.types == types && done == {} && open == {} && components == map["SpiceProblem" := ProblemSchema()]
    {
      this.types := types;
      components := map["SpiceProblem" := ProblemSchema()];
      done, open := {}, {};
    }

    ghost predicate Valid()
      reads this
    {
      Complete(types) && HashTellsApart(types) && Sound(types, components, done, open)
    }

    /** What one visit has added: nothing but types reachable from those shown. */
    ghost predicate Added(before: set<string>, shown: set<string>)
      reads this
    {
      before <= done && forall key :: key in done && key !in before ==> Reaches(types, shown, key)
    }

    method Schema(t: GoType) returns (schema: Schema)
      requires Valid() && Mentions(types, t) <= types.named.Keys
      modifies this
      ensures Valid() && open == old(open) && Added(old(done), Mentions(types, t))
      ensures schema == Shape(types, t) && Mentions(types, t) <= done + open
      decreases types.named.Keys - (done + open), t, 1
    {
      hide Sound, Complete, HashTellsApart, Reaches;
      match t
      case Aliased(target) => schema := Schema(target);
      case PointerTo(elem) =>
        var item := Schema(elem);
        schema := EMPTY.(anyOf := [item, Plain("null", "")]);
      case Named(key) => schema := NamedSchema(key);
      case Basic(kind) => schema := BasicSchema(kind);
      case ArrayOf(elem) =>
        var item := Schema(elem);
        schema := Plain("array", "").(items := Some(item));
      case SliceOf(elem) =>
        var item := Schema(elem);
        schema := Plain("array", "").(items := Some(item));
      case MapTo(elem) =>
        var item := Schema(elem);
        schema := Plain("object", "").(additional := Some(item));
      case Struct(fields) => schema := StructSchema(fields);
      case Other(text) => schema := Plain("object", "").(description := "Schema for " + text);
    }

    /** A placeholder stands for the component while its own structure is built. */
    method NamedSchema(key: string) returns (schema: Schema)
      requires Valid() && Mentions(types, Named(key)) <= types.named.Keys
      modifies this
      ensures Valid() && open == old(open) && Added(old(done), Mentions(types, Named(key)))
      ensures schema == Shape(types, Named(key)) && Mentions(types, Named(key)) <= done + open
      decreases types.named.Keys - (done + open), Named(key), 0
    {
      hide Complete, HashTellsApart, Reaches, Sound;
      LabelDeclared(types, key);
      if IsTime(types.named[key]) {
        return if types.named[key].name == "Time" then Plain("string", "date-time") else Plain("string", "duration");
      }
      var name := ComponentName(types, key);
      PresentMeansBegun(types, components, done, open, key);
      if name !in components {
        ghost var before, done0, open0 := components, done, open;
        MentionsDeclared(types, key);
        components := components[name := Plain("object", "")];
        open := open + {key};
        PlaceholderIsSound(types, before, done0, open0, key, Plain("object", ""));
        var structure := Schema(types.named[key].underlying);
        FinishIsSound(types, components, done, open0, key, structure);
        ReachedThrough(types, done0, done, key);
        components := components[name := structure];
        open := open - {key};
        assert open == open0;
        done := done + {key};
      }
      schema := EMPTY.(ref := RefTo(name));
    }

    method StructSchema(fields: seq<Field>) returns (schema: Schema)
      requires Valid() && FieldMentions(types, fields) <= types.named.Keys
      modifies this
      ensures Valid() && open == old(open) && Added(old(done), FieldMentions(types, fields))
      ensures schema == Shape(types, Struct(fields)) && FieldMentions(types, fields) <= done + open
      decreases types.named.Keys - (done + open), fields, 0
    {
      hide Complete, HashTellsApart, Reaches, Sound, FieldMentions, Mentions, Properties, RequiredNames, Shape,
           JsonField;
      var properties: map<string, Schema>, required := map[], [];
      NoFields(types, fields);
      for i := 0 to |fields|
        invariant Valid() && open == old(open) && Added(old(done), FieldMentions(types, fields[..i]))
        invariant FieldMentions(types, fields[..i]) <= done + open
        invariant FieldMentions(types, fields[..i]) <= types.named.Keys
        invariant properties == Properties(types, fields[..i]) && required == RequiredNames(fields[..i])
      {
        NextField(types, fields, i);
        var json := JsonField(fields[i]);
        if json.Some? {
          ghost var begun := done;
          var schema := Schema(fields[i].typ);
          MoreShown(types, old(done), begun, done, FieldMentions(types, fields[..i]), Mentions(types, fields[i].typ));
          properties := properties[json.value.0 := schema];
          if json.value.1 { required := required + [json.value.0]; }
        }
      }
      assert fields[..|fields|] == fields;
      StructShape(types, fields);
      schema := Plain("object", "").(properties := properties, required := SortStrings(required));
    }
  }

  lemma LabelDeclared(types: Types, key: string)
    requires Mentions(types, Named(key)) <= types.named.Keys
    ensures key in types.named
  {
    assert key in types.named || key in Mentions(types, Named(key));
  }

  lemma MentionsDeclared(types: Types, key: string)
    requires Complete(types) && key in types.named
    ensures Mentions(types, types.named[key].underlying) <= types.named.Keys
  {
  }

  lemma PresentMeansBegun(types: Types, components: map<string, Schema>, done: set<string>, open: set<string>,
                          key: string)
    requires Sound(types, components, done, open) && HashTellsApart(types) && key in types.named
    ensures ComponentName(types, key) in components <==> key in done + open
  {
    var name := ComponentName(types, key);
    if name in components {
      ComponentNamesAreDistinct(types, key, key);
      var other :| other in done + open && ComponentName(types, other) == name;
      ComponentNamesAreDistinct(types, key, other);
    }
  }

  lemma PlaceholderIsSound(types: Types, components: map<string, Schema>, done: set<string>, open: set<string>,
                           key: string, any: Schema)
    requires Sound(types, components, done, open) && HashTellsApart(types) && key in types.named
    requires ComponentName(types, key) !in components
    ensures Sound(types, components[ComponentName(types, key) := any], done, open + {key}) && key !in done + open
  {
    var name := ComponentName(types, key);
    PresentMeansBegun(types, components, done, open, key);
    ComponentNamesAreDistinct(types, key, key);
    forall k | k in done ensures Finished(types, components[name := any], done + open + {key}, k) {
      assert Finished(types, components, done + open, k);
      ComponentNamesAreDistinct(types, key, k);
    }
    assert done + (open + {key}) == done + open + {key};
  }

  lemma FinishIsSound(types: Types, components: map<string, Schema>, done: set<string>, open: set<string>, key: string,
                      structure: Schema)
    requires Sound(types, components, done, open + {key}) && HashTellsApart(types) && key in types.named && key !in open
    requires Mentions(types, types.named[key].underlying) <= types.named.Keys
    requires structure == Shape(types, types.named[key].underlying)
    requires Mentions(types, types.named[key].underlying) <= done + (open + {key})
    ensures Sound(types, components[ComponentName(types, key) := structure], done + {key}, open) && key !in done
  {
    var name := ComponentName(types, key);
    ComponentNamesAreDistinct(types, key, key);
    assert (done + {key}) + open == done + (open + {key});
    forall k | k in done + {key} ensures Finished(types, components[name := structure], done + {key} + open, k) {
      if k != key {
        assert Finished(types, components, done + (open + {key}), k);
        ComponentNamesAreDistinct(types, key, k);
      }
    }
  }

  lemma ReachedThrough(types: Types, before: set<string>, after: set<string>, key: string)
    requires key in types.named && !IsTime(types.named[key])
    requires forall k :: k in after && k !in before ==> Reaches(types, Mentions(types, types.named[key].underlying), k)
    ensures forall k :: k in after + {key} && k !in before ==> Reaches(types, Mentions(types, Named(key)), k)
  {
    forall k | k in after + {key} && k !in before ensures Reaches(types, Mentions(types, Named(key)), k) {
      if k == key { ReachesItself(types, {key}, key); } else { ReachesThrough(types, {key}, key, k); }
    }
  }

  lemma NoFields(types: Types, fields: seq<Field>)
    ensures FieldMentions(types, fields[..0]) == {} && Properties(types, fields[..0]) == map[]
    ensures RequiredNames(fields[..0]) == []
  {
  }

  lemma NextField(types: Types, fields: seq<Field>, i: nat)
    requires i < |fields| && FieldMentions(types, fields) <= types.named.Keys
    ensures FieldMentions(types, fields[..i]) <= types.named.Keys
    ensures FieldMentions(types, fields[..i+1]) <= types.named.Keys
    ensures var json := JsonField(fields[i]);
            if json.None? then
              && FieldMentions(types, fields[..i+1]) == FieldMentions(types, fields[..i])
              && Properties(types, fields[..i+1]) == Properties(types, fields[..i])
              && RequiredNames(fields[..i+1]) == RequiredNames(fields[..i])
            else
              && Mentions(types, fields[i].typ) <= types.named.Keys
              && FieldMentions(types, fields[..i+1]) == FieldMentions(types, fields[..i])
                 + Mentions(types, fields[i].typ)
              && Properties(types, fields[..i+1])
                 == Properties(types, fields[..i])[json.value.0 := Shape(types, fields[i].typ)]
              && RequiredNames(fields[..i+1]) == RequiredNames(fields[..i])
                 + (if json.value.1 then [json.value.0] else [])
  {
    hide Mentions, Shape, JsonField;
    FieldMentionsGrow(types, fields, i + 1);
    FieldMentionsGrow(types, fields, i);
    assert fields[..i+1][..i] == fields[..i] && fields[..i+1][i] == fields[i];
  }

  lemma StructShape(types: Types, fields: seq<Field>)
    requires FieldMentions(types, fields) <= types.named.Keys
    ensures Mentions(types, Struct(fields)) == FieldMentions(types, fields)
    ensures Shape(types, Struct(fields))
            == Plain("object", "").(properties := Properties(types, fields),
                                    required := SortStrings(RequiredNames(fields)))
  {
  }

  lemma {:induction false} FieldMentionsGrow(types: Types, fields: seq<Field>, i: nat)
    requires i <= |fields|
    ensures FieldMentions(types, fields[..i]) <= FieldMentions(types, fields)
  {
    if i == |fields| {
      assert fields[..i] == fields;
    } else {
      FieldMentionsGrow(types, fields[..|fields|-1], i);
      assert fields[..|fields|-1][..i] == fields[..i];
    }
  }

  lemma MoreShown(types: Types, start: set<string>, middle: set<string>, end: set<string>, few: set<string>,
                  more: set<string>)
    requires start <= middle <= end
    requires forall k :: k in middle && k !in start ==> Reaches(types, few, k)
    requires forall k :: k in end && k !in middle ==> Reaches(types, more, k)
    ensures forall k :: k in end && k !in start ==> Reaches(types, few + more, k)
  {
    forall k | k in end && k !in start ensures Reaches(types, few + more, k) {
      if k in middle { ReachesMore(types, few, few + more, k); } else { ReachesMore(types, more, few + more, k); }
    }
  }
}
