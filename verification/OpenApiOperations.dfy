/** What the operation of one route says (compiler/generate/openapi.go: buildOpenAPIOperation and its helpers). */
module OpenApiOperations {
  import opened Catalog
  import opened OpenApi
  import opened OpenApiDocument
  import opened StringLists
  import Sorting

  predicate IsProblem(response: Response) {
    response.media == map["application/problem+json" := Schema("#/components/schemas/SpiceProblem",
                                                               "", "", "", map[], [], None, None, [])]
  }

  /** The members of a problem, of which the first three are always there (section 3.1 of RFC 9457). */
  lemma ProblemMembers()
    ensures var s := ProblemSchema();
            && s.typ == "object" && s.properties.Keys == {"type", "title", "status", "detail", "instance"}
            && (forall name :: name in s.required <==> name in {"type", "title", "status"})
            && s.properties["status"].typ == "integer" && s.properties["status"].format == "int32"
            && (forall name :: name in s.properties && name != "status" ==> s.properties[name].typ == "string")
            && forall name :: name in s.properties ==>
                 (s.properties[name].format == "uri-reference" <==> name in {"type", "instance"})
  {
  }

  /**
   * The status codes a route answers with: those of its kind, refusals if it is guarded, and a problem for anything
   * else, which a raw handler decides for itself.
   */
  lemma OperationAnswers(types: Types, route: Route, id: string)
    requires Shown(types, route) <= types.named.Keys
    ensures var op := OperationOf(types, route, id);
            && op.id == id && op.summary == route.name && op.symbolID == route.symbolID
            && op.secured == route.authorized
            && op.responses.Keys ==
               {"default"} + (if route.authorized then {"401", "403"} else {})
               + (if route.raw then {} else if route.noContent then {"204"} else if route.view then {"200", "303"}
                  else {"200"})
            && (route.authorized ==> IsProblem(op.responses["401"]) && IsProblem(op.responses["403"]))
            && (if route.raw then op.responses["default"].media == map[] else IsProblem(op.responses["default"]))
            && (!route.raw && !route.noContent ==>
                  op.responses["200"].media ==
                  if route.view then map["text/html" := Schema("", "string", "", "", map[], [], None, None, [])]
                  else map["application/json" := Shape(types, route.response)])
  {
    hide Shape, Mentions, FormProperties, FormRequired, Parameters, JsonBody, BodyMentions, FormBody, Guard, Success,
         ProblemResponse, IsProblem;
    GuardAnswers(route);
    SuccessAnswers(types, route);
    assert forall code :: code in {"401", "403"} ==> code !in Success(types, route);
  }

  lemma GuardAnswers(route: Route)
    ensures Guard(route).Keys == if route.authorized then {"401", "403"} else {}
    ensures forall code :: code in Guard(route) ==> IsProblem(Guard(route)[code])
    ensures IsProblem(ProblemResponse())
  {
    assert RefTo("SpiceProblem") == "#/components/schemas/SpiceProblem";
  }

  lemma SuccessAnswers(types: Types, route: Route)
    requires Shown(types, route) <= types.named.Keys
    ensures var s := Success(types, route);
            && s.Keys == (if route.raw then {"default"} else if route.noContent then {"204"}
                          else if route.view then {"200", "303"} else {"200"})
            && (route.raw ==> s["default"].media == map[])
            && (!route.raw && !route.noContent ==>
                  s["200"].media ==
                  if route.view then map["text/html" := Schema("", "string", "", "", map[], [], None, None, [])]
                  else map["application/json" := Shape(types, route.response)])
  {
    hide Shape, Mentions, BodyMentions;
  }

  ghost predicate FormAt(bindings: seq<Binding>, name: string, i: int) {
    0 <= i < |bindings| && bindings[i].location == "form" && bindings[i].name == name
  }

  ghost predicate LastFormAt(bindings: seq<Binding>, name: string, i: int) {
    FormAt(bindings, name, i) && forall j :: i < j < |bindings| ==> !FormAt(bindings, name, j)
  }

  lemma {:induction false} FormFields(types: Types, bindings: seq<Binding>, name: string)
    ensures name in FormProperties(types, bindings) <==> exists i :: LastFormAt(bindings, name, i)
    ensures forall i :: LastFormAt(bindings, name, i) ==>
              name in FormProperties(types, bindings)
              && FormProperties(types, bindings)[name] == ParameterSchema(types, bindings[i])
  {
    hide ParameterSchema;
    if bindings != [] {
      var init, last := bindings[..|bindings|-1], |bindings| - 1;
      FormFields(types, init, name);
      if bindings[last].location == "form" && bindings[last].name == name {
        assert LastFormAt(bindings, name, last);
      } else {
        forall i ensures LastFormAt(bindings, name, i) <==> LastFormAt(init, name, i) { LastStays(bindings, name, i); }
      }
    }
  }

  lemma LastStays(bindings: seq<Binding>, name: string, i: int)
    requires bindings != [] && !FormAt(bindings, name, |bindings| - 1)
    ensures LastFormAt(bindings, name, i) <==> LastFormAt(bindings[..|bindings|-1], name, i)
  {
    var init := bindings[..|bindings|-1];
    assert forall j :: 0 <= j < |init| ==> init[j] == bindings[j];
    forall j ensures FormAt(bindings, name, j) <==> FormAt(init, name, j) {
      if FormAt(bindings, name, j) { assert j < |init|; }
    }
  }

  lemma {:induction false} RequiredFields(bindings: seq<Binding>, name: string)
    ensures name in FormRequired(bindings) <==>
            exists i :: 0 <= i < |bindings| && FormAt(bindings, name, i) && bindings[i].required
  {
    if bindings != [] {
      var init, last := bindings[..|bindings|-1], |bindings| - 1;
      RequiredFields(init, name);
      assert forall j :: 0 <= j < |init| ==>
               init[j] == bindings[j] && FormAt(init, name, j) == FormAt(bindings, name, j);
      assert name in FormRequired(bindings) <==>
             name in FormRequired(init) || (FormAt(bindings, name, last) && bindings[last].required);
    }
  }

  /**
   * A form body stands in place of a JSON body as soon as one input is a form field: an object with a property for
   * every field, required as soon as one of them is.
   */
  lemma FormIsBody(types: Types, route: Route, id: string, name: string)
    requires Shown(types, route) <= types.named.Keys && !route.raw
    ensures var op, bindings := OperationOf(types, route, id), route.bindings;
            (exists i :: LastFormAt(bindings, name, i)) ==>
              && op.body.Some? && op.body.value.media == "application/x-www-form-urlencoded"
              && (op.body.value.required <==> exists b :: b in bindings && b.location == "form" && b.required)
              && op.body.value.schema.typ == "object" && name in op.body.value.schema.properties
              && (forall i :: LastFormAt(bindings, name, i) ==>
                    op.body.value.schema.properties[name] == ParameterSchema(types, bindings[i]))
              && (name in op.body.value.schema.required <==>
                  exists i :: 0 <= i < |bindings| && FormAt(bindings, name, i) && bindings[i].required)
  {
    hide ParameterSchema, FormProperties, FormRequired, Parameters, JsonBody, BodyMentions, Mentions, Shape,
         LastFormAt, FormAt, SortStrings, Guard, Success;
    FormFields(types, route.bindings, name);
    RequiredFields(route.bindings, name);
    SomeRequired(route.bindings);
    Sorting.SameElements(SortStrings(FormRequired(route.bindings)), FormRequired(route.bindings));
  }

  lemma SomeRequired(bindings: seq<Binding>)
    ensures FormRequired(bindings) != [] <==> exists b :: b in bindings && b.location == "form" && b.required
  {
    hide FormRequired;
    var required := FormRequired(bindings);
    if required != [] {
      RequiredFields(bindings, required[0]);
      assert required[0] in required;
      var i :| 0 <= i < |bindings| && FormAt(bindings, required[0], i) && bindings[i].required;
      assert bindings[i] in bindings;
    }
    if b :| b in bindings && b.location == "form" && b.required {
      RequiredFields(bindings, b.name);
      var i :| 0 <= i < |bindings| && bindings[i] == b;
      assert FormAt(bindings, b.name, i);
    }
  }

  /** The basic type behind a parameter: its own, or that of the named type it is, through any aliases. */
  ghost predicate HasKind(types: Types, t: GoType, kind: Kind)
    decreases t
  {
    match t
    case Aliased(target) => HasKind(types, target, kind)
    case Basic(k) => k == kind
    case Named(key) => key in types.named && types.named[key].underlying == Basic(kind)
    case _ => false
  }

  lemma {:induction false} KindBehind(types: Types, t: GoType, kind: Kind)
    ensures UnderlyingKind(types, t) == Some(kind) <==> HasKind(types, t, kind)
    decreases t
  {
    if t.Aliased? { KindBehind(types, t.target, kind); }
  }

  /** A parameter's schema: booleans, strings and durations by name, integers int32 when 8, 16 or 32 bits wide. */
  lemma ParameterShapes(types: Types, b: Binding)
    ensures var s := ParameterSchema(types, b);
            && s == Schema("", s.typ, s.format, "", map[], [], None, None, [])
            && s.typ == (match b.kind
                         case ScalarBoolean => "boolean"
                         case ScalarInteger => "integer"
                         case ScalarDuration => "string"
                         case ScalarString => "string"
                         case NotScalar => "object")
            && (s.format == "duration" <==> b.kind.ScalarDuration?)
            && (s.format == "int32" <==>
                b.kind.ScalarInteger? && exists bits :: bits in {8, 16, 32} && HasKind(types, b.typ, Integer(bits)))
            && (s.format == "" <==> b.kind !in {ScalarInteger, ScalarDuration})
            && s.format in {"", "duration", "int32", "int64"}
  {
    hide UnderlyingKind, HasKind;
    forall kind ensures UnderlyingKind(types, b.typ) == Some(kind) <==> HasKind(types, b.typ, kind) {
      KindBehind(types, b.typ, kind);
    }
    var kind := UnderlyingKind(types, b.typ);
    if kind.Some? && kind.value.Integer? && kind.value.bits in {8, 16, 32} {
      assert HasKind(types, b.typ, Integer(kind.value.bits));
    }
  }

  /** An operation is called by its controller and its route, with the symbol's hash behind a name used twice. */
  lemma IdentifiersSpelled(types: Types, routes: seq<Route>, i: nat)
    requires i < |routes|
    ensures var r, id := routes[i], OperationId(types, routes, i);
            var base := r.controller + "_" + r.name;
            id == if exists j :: 0 <= j < |routes| && j != i && routes[j].controller + "_" + routes[j].name == base
                  then base + "_" + types.hash(r.symbolID) else base
  {
    hide CountId;
    CountedOnce(routes, i);
    var base := BaseId(routes[i]);
    if j :| 0 <= j < |routes| && j != i && BaseId(routes[j]) == base {
      if i < j { CountsTwice(routes, base, i, j); } else { CountsTwice(routes, base, j, i); }
    } else {
      CountsAlone(routes, base, i);
    }
  }

  lemma {:induction false} CountsNone(routes: seq<Route>, id: string)
    requires forall j :: 0 <= j < |routes| ==> BaseId(routes[j]) != id
    ensures CountId(routes, id) == 0
  {
    if routes != [] { CountsNone(routes[..|routes|-1], id); }
  }

  lemma {:induction false} CountsAlone(routes: seq<Route>, id: string, i: nat)
    requires i < |routes| && forall j :: 0 <= j < |routes| && j != i ==> BaseId(routes[j]) != id
    ensures CountId(routes, id) <= 1
    decreases |routes|
  {
    var init := routes[..|routes|-1];
    if i < |init| { CountsAlone(init, id, i); } else { CountsNone(init, id); }
  }
}
