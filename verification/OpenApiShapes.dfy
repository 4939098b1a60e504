/**
 * What the schema of a Go type says, kind by kind (compiler/generate/openapi.go: schema, structSchema,
 * openAPIJSONField).
 */
module OpenApiShapes {
  import opened Catalog
  import opened OpenApi
  import opened StringLists
  import Sorting
  import StringOrder
  import Tarjan

  // ----- Field tags ------------------------------------------------------------------------------

  /** A tag: a name, and options behind commas. */
  function Tag(name: string, options: seq<string>): string
    decreases |options|
  {
    if options == [] then name else name + "," + Tag(options[0], options[1..])
  }

  lemma {:induction false} SplitName(name: string, rest: string)
    requires ',' !in name
    ensures SplitComma(name + "," + rest) == [name] + SplitComma(rest)
    decreases |name|
  {
    var s := name + "," + rest;
    if name == "" {
      assert s[1..] == rest;
    } else {
      assert s[0] == name[0] && s[1..] == name[1..] + "," + rest;
      SplitName(name[1..], rest);
      assert [name[0]] + name[1..] == name;
    }
  }

  /** Splitting a tag gives its name and its options back. */
  lemma {:induction false} SplitTag(name: string, options: seq<string>)
    requires ',' !in name && forall i :: 0 <= i < |options| ==> ',' !in options[i]
    ensures SplitComma(Tag(name, options)) == [name] + options
    decreases |options|
  {
    if options == [] {
      NameIsWhole(name);
    } else {
      SplitName(name, Tag(options[0], options[1..]));
      SplitTag(options[0], options[1..]);
      assert [options[0]] + options[1..] == options;
    }
  }

  /**
   * A field's name in JSON is its tag's, or its own where the tag gives none; it is left out when unexported or
   * tagged "-", and required unless it may be omitted when empty or zero.
   */
  lemma FieldInJson(field: Field, name: string, options: seq<string>)
    requires ',' !in name && forall i :: 0 <= i < |options| ==> ',' !in options[i]
    ensures !field.exported ==> JsonField(field) == None
    ensures field.exported && field.tag.None? ==> JsonField(field) == Some((field.name, true))
    ensures field.exported && field.tag == Some(Tag(name, options)) ==>
              && (JsonField(field) == None <==> name == "-")
              && (name != "-" ==>
                    JsonField(field) == Some((if name == "" then field.name else name,
                                              forall o :: o in options ==> o !in {"omitempty", "omitzero"})))
  {
    hide Tag, SplitComma;
    SplitTag(name, options);
    assert ([name] + options)[1..] == options;
  }

  // ----- Structures ------------------------------------------------------------------------------

  ghost predicate LastOf(fields: seq<Field>, name: string, i: int) {
    && 0 <= i < |fields| && JsonField(fields[i]).Some? && JsonField(fields[i]).value.0 == name
    && forall j :: i < j < |fields| && JsonField(fields[j]).Some? ==> JsonField(fields[j]).value.0 != name
  }

  lemma FieldShown(types: Types, fields: seq<Field>, i: nat)
    requires FieldMentions(types, fields) <= types.named.Keys && i < |fields| && JsonField(fields[i]).Some?
    ensures Mentions(types, fields[i].typ) <= types.named.Keys
    decreases |fields|
  {
    hide JsonField, Mentions;
    if i < |fields| - 1 { FieldShown(types, fields[..|fields|-1], i); }
  }

  /** A property for every JSON name, with the schema of the last field of that name. */
  lemma {:induction false} PropertiesOf(types: Types, fields: seq<Field>, name: string)
    requires FieldMentions(types, fields) <= types.named.Keys
    ensures name in Properties(types, fields) <==> exists i :: LastOf(fields, name, i)
    ensures forall i :: LastOf(fields, name, i) ==>
              && name in Properties(types, fields) && Mentions(types, fields[i].typ) <= types.named.Keys
              && Properties(types, fields)[name] == Shape(types, fields[i].typ)
    decreases |fields|
  {
    hide JsonField, Mentions, Shape;
    if fields != [] {
      var init, last := fields[..|fields|-1], |fields| - 1;
      PropertiesOf(types, init, name);
      if JsonField(fields[last]).Some? && JsonField(fields[last]).value.0 == name {
        assert LastOf(fields, name, last);
      } else {
        forall i ensures LastOf(fields, name, i) <==> LastOf(init, name, i) { LastStays(fields, name, i); }
      }
    }
  }

  lemma LastStays(fields: seq<Field>, name: string, i: int)
    requires fields != []
    requires JsonField(fields[|fields|-1]).Some? ==> JsonField(fields[|fields|-1]).value.0 != name
    ensures LastOf(fields, name, i) <==> LastOf(fields[..|fields|-1], name, i)
  {
    hide JsonField;
    var init := fields[..|fields|-1];
    assert forall j :: 0 <= j < |init| ==> init[j] == fields[j];
    if LastOf(fields, name, i) { assert i < |init|; }
  }

  /** A structure is an object; its required names are the JSON names of fields that are never omitted, sorted. */
  lemma StructShape(types: Types, fields: seq<Field>, name: string)
    requires Mentions(types, Struct(fields)) <= types.named.Keys
    ensures var s := Shape(types, Struct(fields));
            && s.typ == "object" && s.ref == s.format == "" && s.items == s.additional == None && s.anyOf == []
            && (name in s.properties <==> exists i :: LastOf(fields, name, i))
            && (forall i :: LastOf(fields, name, i) ==>
                  && Mentions(types, fields[i].typ) <= types.named.Keys && name in s.properties
                  && s.properties[name] == Shape(types, fields[i].typ))
            && (name in s.required <==> exists i :: 0 <= i < |fields| && JsonField(fields[i]) == Some((name, true)))
            && forall i, j :: 0 <= i < j < |s.required| ==>
                 s.required[i] == s.required[j] || StringOrder.SpelledBefore(s.required[i], s.required[j])
  {
    hide JsonField, LastOf, Properties, RequiredNames, FieldMentions, StringOrder.SpelledBefore, SortStrings;
    PropertiesOf(types, fields, name);
    RequiredNamesOf(fields, name);
    RequiredIs(fields, name);
    Sorting.SameElements(SortStrings(RequiredNames(fields)), RequiredNames(fields));
    StringsAscend(RequiredNames(fields));
  }

  lemma RequiredIs(fields: seq<Field>, name: string)
    ensures forall i :: 0 <= i < |fields| ==>
              (RequiredName(fields[i]) == Some(name) <==> JsonField(fields[i]) == Some((name, true)))
  {
    hide JsonField;
  }

  lemma StringsAscend(values: seq<string>)
    ensures var r := SortStrings(values);
            forall i, j :: 0 <= i < j < |r| ==> r[i] == r[j] || StringOrder.SpelledBefore(r[i], r[j])
  {
    hide StringOrder.SpelledBefore, Sorting.StableSort;
    Tarjan.KeyedOrderIsStrictWeak(StringBefore(), (s: string) => s);
    Sorting.StableSortSorted(values, StringBefore());
    var r := SortStrings(values);
    forall i, j | 0 <= i < j < |r| ensures r[i] == r[j] || StringOrder.SpelledBefore(r[i], r[j]) {
      assert !StringBefore()(r[j], r[i]);
      StringOrder.LessTotal(r[i], r[j]);
      StringOrder.LessIffSpelledBefore(r[i], r[j]);
    }
  }

  // ----- Component names -------------------------------------------------------------------------

  predicate Alphanumeric(c: char) { 'A' <= c <= 'Z' || 'a' <= c <= 'z' || '0' <= c <= '9' }

  /** Letters, digits and underscores of a type's name stay, and a run of anything else becomes one underscore. */
  lemma NameSanitized(kept: string, run: string, rest: string)
    requires forall i :: 0 <= i < |kept| ==> Alphanumeric(kept[i]) || kept[i] == '_'
    requires forall i :: 0 <= i < |run| ==> !Alphanumeric(run[i]) && run[i] != '_'
    requires run == "" || rest == "" || Alphanumeric(rest[0]) || rest[0] == '_'
    ensures Sanitized(kept + (run + rest)) == kept + (if run == "" then "" else "_") + Sanitized(rest)
  {
    hide Sanitized;
    KeptSanitized(kept, run + rest);
    if run == "" {
      assert run + rest == rest && kept + "" == kept;
    } else {
      RunSanitized(run, rest);
      assert kept + ("_" + Sanitized(rest)) == kept + "_" + Sanitized(rest);
    }
  }

  lemma {:induction false} KeptSanitized(kept: string, tail: string)
    requires forall i :: 0 <= i < |kept| ==> IsNameChar(kept[i])
    ensures Sanitized(kept + tail) == kept + Sanitized(tail)
  {
    if kept == "" {
      assert kept + tail == tail && kept + Sanitized(tail) == Sanitized(tail);
    } else {
      KeptSanitized(kept[1..], tail);
      assert (kept + tail)[0] == kept[0] && (kept + tail)[1..] == kept[1..] + tail;
      assert kept + Sanitized(tail) == [kept[0]] + (kept[1..] + Sanitized(tail));
    }
  }

  lemma RunSanitized(run: string, rest: string)
    requires run != "" && forall i :: 0 <= i < |run| ==> !IsNameChar(run[i])
    requires rest == "" || IsNameChar(rest[0])
    ensures Sanitized(run + rest) == "_" + Sanitized(rest)
  {
    RunSkipped(run, rest);
    assert (run + rest)[0] == run[0];
  }

  lemma {:induction false} RunSkipped(run: string, rest: string)
    requires forall i :: 0 <= i < |run| ==> !IsNameChar(run[i])
    requires rest == "" || IsNameChar(rest[0])
    ensures SkipRun(run + rest) == rest
  {
    if run == "" {
      assert run + rest == rest;
    } else {
      RunSkipped(run[1..], rest);
      assert (run + rest)[1..] == run[1..] + rest;
    }
  }

  // ----- Other types -----------------------------------------------------------------------------

  /** Lists are arrays of their element's schema, maps objects of it, and a pointer is its target or null. */
  lemma WrapperShapes(types: Types, t: GoType)
    requires Mentions(types, t) <= types.named.Keys
    ensures forall list :: list in {SliceOf(t), ArrayOf(t)} ==>
              Shape(types, list) == Schema("", "array", "", "", map[], [], Some(Shape(types, t)), None, [])
    ensures Shape(types, MapTo(t)) == Schema("", "object", "", "", map[], [], None, Some(Shape(types, t)), [])
    ensures var absent := Schema("", "null", "", "", map[], [], None, None, []);
            Shape(types, PointerTo(t)) == Schema("", "", "", "", map[], [], None, None, [Shape(types, t), absent])
    ensures Shape(types, Aliased(t)) == Shape(types, t)
  {
  }

  predicate IsLeaf(s: Schema) {
    && s.ref == s.description == "" && s.properties == map[] && s.required == [] && s.anyOf == []
    && s.items == s.additional == None
  }

  /** Integers of at most 32 bits are int32 and all others int64; floats are doubles. */
  lemma BasicShapes(types: Types, kind: Kind)
    ensures var s := Shape(types, Basic(kind));
            && IsLeaf(s)
            && s.typ == (match kind
                         case Bool => "boolean"
                         case Integer(_) => "integer"
                         case Float => "number"
                         case Text => "string"
                         case Opaque => "object")
            && (s.format == "int32" <==> exists bits :: bits in {8, 16, 32} && kind == Integer(bits))
            && (s.format == "int64" <==> kind.Integer? && kind.bits !in {8, 16, 32})
            && (s.format == "double" <==> kind.Float?) && (s.format == "" <==> !kind.Integer? && !kind.Float?)
  {
    if kind.Integer? && kind.bits in {8, 16, 32} { assert kind == Integer(kind.bits); }
  }

  /** Times and durations are formatted strings, every other named type a reference to its component. */
  lemma NamedShapes(types: Types, key: string)
    requires key in types.named
    ensures var s, n := Shape(types, Named(key)), types.named[key];
            if n.package == "time" && n.name in {"Time", "Duration"} then
              IsLeaf(s) && s.typ == "string" && s.format == if n.name == "Time" then "date-time" else "duration"
            else s == Schema("#/components/schemas/" + Sanitized(n.name) + "_" + types.hash(key),
                             "", "", "", map[], [], None, None, [])
  {
    hide Sanitized;
  }
}
