/** The OpenAPI document of all routes (compiler/generate/openapi.go: renderOpenAPI). */
module OpenApiDocument {
  import opened Catalog
  import opened OpenApi
  import opened StringLists
  import Sorting

  datatype Scalar = ScalarString | ScalarBoolean | ScalarInteger | ScalarDuration | NotScalar

  datatype Binding = Binding(name: string, location: string, required: bool, kind: Scalar, typ: GoType)

  /** A route with the name of its controller. */
  datatype Route = Route(
    controller: string, name: string, symbolID: string, httpMethod: string, path: string,
    raw: bool, noContent: bool, view: bool, authorized: bool, bindings: seq<Binding>, response: GoType)

  datatype Parameter = Parameter(name: string, location: string, required: bool, schema: Schema)

  datatype RequestBody = RequestBody(required: bool, media: string, schema: Schema)

  datatype Response = Response(description: string, media: map<string, Schema>)

  datatype Operation = Operation(id: string, summary: string, symbolID: string, secured: bool,
    parameters: seq<Parameter>, body: Option<RequestBody>, responses: map<string, Response>)

  datatype Document = Document(paths: map<string, map<string, Operation>>, schemas: map<string, Schema>, bearer: bool)

  // ----- One operation ---------------------------------------------------------------------------

  function UnderlyingKind(types: Types, t: GoType): Option<Kind> {
    match Unalias(t)
    case Basic(kind) => Some(kind)
    case Named(key) =>
      if key in types.named && types.named[key].underlying.Basic? then Some(types.named[key].underlying.kind) else None
    case _ => None
  }

  function ParameterSchema(types: Types, b: Binding): Schema {
    match b.kind
    case ScalarBoolean => Plain("boolean", "")
    case ScalarInteger =>
      var kind := UnderlyingKind(types, b.typ);
      Plain("integer", if kind.Some? then IntegerFormat(kind.value) else "int64")
    case ScalarDuration => Plain("string", "duration")
    case ScalarString => Plain("string", "")
    case NotScalar => Plain("object", "")
  }

  function ProblemResponse(): Response {
    Response("RFC 9457 problem response", map["application/problem+json" := EMPTY.(ref := RefTo("SpiceProblem"))])
  }

  /** The named types a route's request and response show. */
  function BodyMentions(types: Types, bindings: seq<Binding>): set<string> {
    if bindings == [] then {}
    else
      var last := bindings[|bindings|-1];
      if last.location == "body" then BodyMentions(types, bindings[..|bindings|-1]) + Mentions(types, last.typ)
      else BodyMentions(types, bindings[..|bindings|-1])
  }

  predicate AnswersJson(route: Route) { !route.raw && !route.noContent && !route.view }

  function Shown(types: Types, route: Route): set<string> {
    if route.raw then {}
    else if AnswersJson(route) then BodyMentions(types, route.bindings) + Mentions(types, route.response)
    else BodyMentions(types, route.bindings)
  }

  /** Every reference in the schema names one of the components. */
  predicate Resolves(s: Schema, names: set<string>) {
    && (s.ref == "" || exists name :: name in names && s.ref == RefTo(name))
    && (forall k :: k in s.properties ==> Resolves(s.properties[k], names))
    && (s.items.Some? ==> Resolves(s.items.value, names))
    && (s.additional.Some? ==> Resolves(s.additional.value, names))
    && (forall i :: 0 <= i < |s.anyOf| ==> Resolves(s.anyOf[i], names))
  }

  predicate ResponseResolves(response: Response, names: set<string>) {
    forall media :: media in response.media ==> Resolves(response.media[media], names)
  }

  predicate OperationResolves(op: Operation, names: set<string>) {
    && (forall i :: 0 <= i < |op.parameters| ==> Resolves(op.parameters[i].schema, names))
    && (op.body.Some? ==> Resolves(op.body.value.schema, names))
    && (forall code :: code in op.responses ==> ResponseResolves(op.responses[code], names))
  }

  predicate Covered(types: Types, shown: set<string>, names: set<string>) {
    forall key :: key in shown ==> key in types.named && ComponentName(types, key) in names
  }

  lemma {:induction false} ShapeResolves(types: Types, t: GoType, names: set<string>)
    requires Mentions(types, t) <= types.named.Keys && Covered(types, Mentions(types, t), names)
    ensures Resolves(Shape(types, t), names)
    decreases t
  {
    match t
    case Aliased(target) => ShapeResolves(types, target, names);
    case PointerTo(elem) => ShapeResolves(types, elem, names);
    case Named(key) => LabelDeclared(types, key);
    case ArrayOf(elem) => ShapeResolves(types, elem, names);
    case SliceOf(elem) => ShapeResolves(types, elem, names);
    case MapTo(elem) => ShapeResolves(types, elem, names);
    case Struct(fields) => PropertiesResolve(types, fields, names);
    case Basic(_) =>
    case Other(_) =>
  }

  lemma {:induction false} PropertiesResolve(types: Types, fields: seq<Field>, names: set<string>)
    requires FieldMentions(types, fields) <= types.named.Keys && Covered(types, FieldMentions(types, fields), names)
    ensures forall k :: k in Properties(types, fields) ==> Resolves(Properties(types, fields)[k], names)
    decreases fields
  {
    if fields != [] {
      PropertiesResolve(types, fields[..|fields|-1], names);
      var last := fields[|fields|-1];
      if JsonField(last).Some? { ShapeResolves(types, last.typ, names); }
    }
  }

  // ----- What an operation says ------------------------------------------------------------------

  function FormProperties(types: Types, bindings: seq<Binding>): map<string, Schema> {
    if bindings == [] then map[]
    else
      var last := bindings[|bindings|-1];
      var before := FormProperties(types, bindings[..|bindings|-1]);
      if last.location == "form" then before[last.name := ParameterSchema(types, last)] else before
  }

  function FormRequired(bindings: seq<Binding>): seq<string> {
    if bindings == [] then []
    else
      var last := bindings[|bindings|-1];
      FormRequired(bindings[..|bindings|-1]) + (if last.location == "form" && last.required then [last.name] else [])
  }

  function Parameters(types: Types, bindings: seq<Binding>): seq<Parameter> {
    if bindings == [] then []
    else
      var last := bindings[|bindings|-1];
      Parameters(types, bindings[..|bindings|-1])
      + (if last.location == "form" || last.location == "body" then []
         else [Parameter(last.name, last.location, last.required, ParameterSchema(types, last))])
  }

  function JsonBody(types: Types, bindings: seq<Binding>): Option<RequestBody>
    requires BodyMentions(types, bindings) <= types.named.Keys
  {
    if bindings == [] then None
    else
      var last := bindings[|bindings|-1];
      if last.location == "body" then Some(RequestBody(true, "application/json", Shape(types, last.typ)))
      else JsonBody(types, bindings[..|bindings|-1])
  }

  function Guard(route: Route): map<string, Response> {
    if route.authorized then map["401" := ProblemResponse(), "403" := ProblemResponse()] else map[]
  }

  function FormBody(properties: map<string, Schema>, required: seq<string>): RequestBody {
    RequestBody(required != [], "application/x-www-form-urlencoded",
                Plain("object", "").(properties := properties, required := SortStrings(required)))
  }

  function Success(types: Types, route: Route): map<string, Response>
    requires AnswersJson(route) ==> Mentions(types, route.response) <= types.named.Keys
  {
    if route.raw then map["default" := Response("Response owned by raw net/http handler", map[])]
    else if route.noContent then map["204" := Response("No Content", map[])]
    else if route.view then
      map["200" := Response("OK", map["text/html" := Plain("string", "")]), "303" := Response("See Other", map[])]
    else map["200" := Response("OK", map["application/json" := Shape(types, route.response)])]
  }

  function OperationOf(types: Types, route: Route, id: string): Operation
    requires Shown(types, route) <= types.named.Keys
  {
    if route.raw then Operation(id, route.name, route.symbolID, route.authorized, [], None,
                                Guard(route) + Success(types, route))
    else
      assert BodyMentions(types, route.bindings) <= Shown(types, route);
      var form := FormProperties(types, route.bindings);
      Operation(id, route.name, route.symbolID, route.authorized, Parameters(types, route.bindings),
                if form != map[] then Some(FormBody(form, FormRequired(route.bindings)))
                else JsonBody(types, route.bindings),
                (Guard(route) + Success(types, route))["default" := ProblemResponse()])
  }

  lemma NoBindings(types: Types, bindings: seq<Binding>)
    ensures BodyMentions(types, bindings[..0]) == {} && FormProperties(types, bindings[..0]) == map[]
    ensures FormRequired(bindings[..0]) == []
    ensures Parameters(types, bindings[..0]) == [] && JsonBody(types, bindings[..0]) == None
  {
  }

  lemma {:induction false} BodyMentionsGrow(types: Types, bindings: seq<Binding>, i: nat)
    requires i <= |bindings|
    ensures BodyMentions(types, bindings[..i]) <= BodyMentions(types, bindings)
  {
    if i == |bindings| {
      assert bindings[..i] == bindings;
    } else {
      BodyMentionsGrow(types, bindings[..|bindings|-1], i);
      assert bindings[..|bindings|-1][..i] == bindings[..i];
    }
  }

  lemma NextBinding(types: Types, bindings: seq<Binding>, i: nat)
    requires i < |bindings| && BodyMentions(types, bindings) <= types.named.Keys
    ensures BodyMentions(types, bindings[..i]) <= types.named.Keys
    ensures BodyMentions(types, bindings[..i+1]) <= types.named.Keys
    ensures var b, old_, new_ := bindings[i], bindings[..i], bindings[..i+1];
            && (b.location == "body" ==> Mentions(types, b.typ) <= types.named.Keys)
            && BodyMentions(types, new_)
               == (if b.location == "body" then BodyMentions(types, old_) + Mentions(types, b.typ)
                   else BodyMentions(types, old_))
            && JsonBody(types, new_)
               == (if b.location == "body" then Some(RequestBody(true, "application/json", Shape(types, b.typ)))
                   else JsonBody(types, old_))
            && FormProperties(types, new_)
               == (if b.location == "form" then FormProperties(types, old_)[b.name := ParameterSchema(types, b)]
                   else FormProperties(types, old_))
            && FormRequired(new_) == FormRequired(old_) + (if b.location == "form" && b.required then [b.name] else [])
            && Parameters(types, new_) == Parameters(types, old_)
               + (if b.location == "form" || b.location == "body" then []
                  else [Parameter(b.name, b.location, b.required, ParameterSchema(types, b))])
  {
    hide Mentions, Shape, ParameterSchema;
    BodyMentionsGrow(types, bindings, i + 1);
    BodyMentionsGrow(types, bindings, i);
    assert bindings[..i+1][..i] == bindings[..i] && bindings[..i+1][i] == bindings[i];
  }

  /** Sorts the bindings into parameters, form fields and a JSON body. */
  method ReadBindings(builder: Builder, bindings: seq<Binding>)
      returns (form: map<string, Schema>, required: seq<string>, parameters: seq<Parameter>, body: Option<RequestBody>)
    requires builder.Valid() && BodyMentions(builder.types, bindings) <= builder.types.named.Keys
    modifies builder
    ensures builder.Valid() && builder.open == old(builder.open)
    ensures builder.Added(old(builder.done), BodyMentions(builder.types, bindings))
    ensures BodyMentions(builder.types, bindings) <= builder.done + builder.open
    ensures form == FormProperties(builder.types, bindings) && required == FormRequired(bindings)
    ensures parameters == Parameters(builder.types, bindings) && body == JsonBody(builder.types, bindings)
  {
    hide Complete, HashTellsApart, Reaches, Sound, Mentions, Shape, ParameterSchema, FormProperties, FormRequired,
         Parameters, JsonBody, BodyMentions, SortStrings;
    var types := builder.types;
    form, required, parameters, body := map[], [], [], None;
    NoBindings(types, bindings);
    for i := 0 to |bindings|
      invariant builder.Valid() && builder.open == old(builder.open)
      invariant BodyMentions(types, bindings[..i]) <= types.named.Keys
      invariant builder.Added(old(builder.done), BodyMentions(types, bindings[..i]))
      invariant BodyMentions(types, bindings[..i]) <= builder.done + builder.open
      invariant form == FormProperties(types, bindings[..i]) && required == FormRequired(bindings[..i])
      invariant parameters == Parameters(types, bindings[..i]) && body == JsonBody(types, bindings[..i])
    {
      var binding := bindings[i];
      NextBinding(types, bindings, i);
      if binding.location == "body" {
        ghost var begun := builder.done;
        var schema := builder.Schema(binding.typ);
        MoreShown(types, old(builder.done), begun, builder.done, BodyMentions(types, bindings[..i]),
                  Mentions(types, binding.typ));
        body := Some(RequestBody(true, "application/json", schema));
      } else if binding.location == "form" {
        form := form[binding.name := ParameterSchema(types, binding)];
        if binding.required { required := required + [binding.name]; }
      } else {
        parameters := parameters
        + [Parameter(binding.name, binding.location, binding.required, ParameterSchema(types, binding))];
      }
    }
    assert bindings[..|bindings|] == bindings;
  }

  /** Describes one route, adding the components its types need. */
  method BuildOperation(builder: Builder, route: Route, id: string) returns (op: Operation)
    requires builder.Valid() && Shown(builder.types, route) <= builder.types.named.Keys
    modifies builder
    ensures builder.Valid() && builder.open == old(builder.open)
    ensures builder.Added(old(builder.done), Shown(builder.types, route))
    ensures Shown(builder.types, route) <= builder.done + builder.open
    ensures op == OperationOf(builder.types, route, id)
  {
    hide Complete, HashTellsApart, Reaches, Sound, Mentions, Shape, FormProperties, FormRequired, Parameters, JsonBody,
         BodyMentions, SortStrings, FormBody;
    var types := builder.types;
    var responses := Guard(route);
    if route.raw {
      return Operation(id, route.name, route.symbolID, route.authorized, [], None,
                       responses["default" := Response("Response owned by raw net/http handler", map[])]);
    }
    var form, required, parameters, body := ReadBindings(builder, route.bindings);
    if form != map[] { body := Some(FormBody(form, required)); }
    if route.noContent {
      responses := responses["204" := Response("No Content", map[])];
    } else if route.view {
      responses := responses["200" := Response("OK", map["text/html" := Plain("string", "")])];
      responses := responses["303" := Response("See Other", map[])];
    } else {
      ghost var begun := builder.done;
      var schema := builder.Schema(route.response);
      MoreShown(types, old(builder.done), begun, builder.done, BodyMentions(types, route.bindings),
                Mentions(types, route.response));
      responses := responses["200" := Response("OK", map["application/json" := schema])];
    }
    assert responses == Guard(route) + Success(types, route);
    op := Operation(id, route.name, route.symbolID, route.authorized, parameters, body,
                    responses["default" := ProblemResponse()]);
  }

  // ----- References in an operation --------------------------------------------------------------

  lemma {:induction false} JsonBodyResolves(types: Types, bindings: seq<Binding>, names: set<string>)
    requires BodyMentions(types, bindings) <= types.named.Keys && Covered(types, BodyMentions(types, bindings), names)
    ensures JsonBody(types, bindings).Some? ==> Resolves(JsonBody(types, bindings).value.schema, names)
  {
    if bindings != [] {
      var last := bindings[|bindings|-1];
      if last.location == "body" {
        ShapeResolves(types, last.typ, names);
      } else {
        JsonBodyResolves(types, bindings[..|bindings|-1], names);
      }
    }
  }

  lemma {:induction false} ScalarsResolve(types: Types, bindings: seq<Binding>, names: set<string>)
    ensures forall k :: k in FormProperties(types, bindings) ==> Resolves(FormProperties(types, bindings)[k], names)
    ensures forall i :: 0 <= i < |Parameters(types, bindings)| ==>
              Resolves(Parameters(types, bindings)[i].schema, names)
  {
    if bindings != [] {
      ScalarsResolve(types, bindings[..|bindings|-1], names);
    }
  }

  lemma OperationOfResolves(types: Types, route: Route, id: string, names: set<string>)
    requires Shown(types, route) <= types.named.Keys && Covered(types, Shown(types, route), names)
    requires "SpiceProblem" in names
    ensures OperationResolves(OperationOf(types, route, id), names)
  {
    hide Mentions, Shape, FormProperties, FormRequired, Parameters, JsonBody, BodyMentions, SortStrings, Success,
         ResponseResolves, Covered;
    var op := OperationOf(types, route, id);
    ProblemResolves(names);
    SuccessResolves(types, route, names);
    if !route.raw {
      LessCovered(types, BodyMentions(types, route.bindings), Shown(types, route), names);
      ScalarsResolve(types, route.bindings, names);
      JsonBodyResolves(types, route.bindings, names);
    }
    forall code | code in op.responses ensures ResponseResolves(op.responses[code], names) {
      assert op.responses[code] == ProblemResponse()
             || (code in Success(types, route) && op.responses[code] == Success(types, route)[code]);
    }
  }

  lemma LessCovered(types: Types, few: set<string>, many: set<string>, names: set<string>)
    requires few <= many && Covered(types, many, names)
    ensures Covered(types, few, names)
  {
  }

  lemma ProblemResolves(names: set<string>)
    requires "SpiceProblem" in names
    ensures ResponseResolves(ProblemResponse(), names)
  {
  }

  lemma SuccessResolves(types: Types, route: Route, names: set<string>)
    requires Shown(types, route) <= types.named.Keys && Covered(types, Shown(types, route), names)
    ensures forall code :: code in Success(types, route) ==> ResponseResolves(Success(types, route)[code], names)
  {
    if AnswersJson(route) { ShapeResolves(types, route.response, names); }
    hide Mentions, Shape;
  }

  // ----- Operation identifiers -------------------------------------------------------------------

  function BaseId(route: Route): string { route.controller + "_" + route.name }

  function CountId(routes: seq<Route>, id: string): nat {
    if routes == [] then 0 else CountId(routes[..|routes|-1], id) + (if BaseId(routes[|routes|-1]) == id then 1 else 0)
  }

  function OperationId(types: Types, routes: seq<Route>, i: nat): string
    requires i < |routes|
  {
    var base := BaseId(routes[i]);
    if CountId(routes, base) > 1 then base + "_" + types.hash(routes[i].symbolID) else base
  }

  lemma {:induction false} CountsOnce(routes: seq<Route>, id: string, i: nat)
    requires i < |routes| && BaseId(routes[i]) == id
    ensures CountId(routes, id) >= 1
  {
    if i < |routes| - 1 {
      assert routes[..|routes|-1][i] == routes[i];
      CountsOnce(routes[..|routes|-1], id, i);
    }
  }

  lemma {:induction false} CountsTwice(routes: seq<Route>, id: string, i: nat, j: nat)
    requires i < j < |routes| && BaseId(routes[i]) == id == BaseId(routes[j])
    ensures CountId(routes, id) >= 2
  {
    var init := routes[..|routes|-1];
    assert init[i] == routes[i];
    if j == |routes| - 1 {
      CountsOnce(init, id, i);
    } else {
      assert init[j] == routes[j];
      CountsTwice(init, id, i, j);
    }
  }

  /** A name used once that spells out what a repeated name becomes. */
  ghost predicate Mimics(types: Types, routes: seq<Route>, i: nat, j: nat) {
    && i < |routes| && j < |routes| && CountId(routes, BaseId(routes[i])) == 1 && CountId(routes, BaseId(routes[j])) > 1
    && BaseId(routes[i]) == BaseId(routes[j]) + "_" + types.hash(routes[j].symbolID)
  }

  /** The hash tells the routes' symbols apart. */
  ghost predicate DistinctSymbols(types: Types, routes: seq<Route>) {
    forall i, j :: 0 <= i < j < |routes| ==> types.hash(routes[i].symbolID) != types.hash(routes[j].symbolID)
  }

  lemma CountedOnce(routes: seq<Route>, i: nat)
    requires i < |routes|
    ensures CountId(routes, BaseId(routes[i])) >= 1
  {
    CountsOnce(routes, BaseId(routes[i]), i);
  }

  lemma OneClash(types: Types, routes: seq<Route>, i: nat, j: nat)
    requires HashTellsApart(types) && DistinctSymbols(types, routes) && i < j < |routes|
    ensures OperationId(types, routes, i) == OperationId(types, routes, j)
            <==> Mimics(types, routes, i, j) || Mimics(types, routes, j, i)
  {
    var a, b := BaseId(routes[i]), BaseId(routes[j]);
    CountedOnce(routes, i);
    CountedOnce(routes, j);
    if a == b { CountsTwice(routes, a, i, j); }
    var x, y := types.hash(routes[i].symbolID), types.hash(routes[j].symbolID);
    assert x != y && |x| == |y|;
    if a + "_" + x == b + "_" + y { SuffixesAgree(a + "_", x, b + "_", y); }
  }

  /** Identifiers are unique (section 4.8.10 of OpenAPI 3.1.0) exactly when no name used once mimics a repeated one. */
  lemma OperationIdsUniqueIff(types: Types, routes: seq<Route>)
    requires HashTellsApart(types) && DistinctSymbols(types, routes)
    ensures (forall i, j :: 0 <= i < j < |routes| ==> OperationId(types, routes, i) != OperationId(types, routes, j))
        <==> !exists i, j :: Mimics(types, routes, i, j)
  {
    if i, j :| Mimics(types, routes, i, j) {
      assert i != j;
      if i < j { OneClash(types, routes, i, j); } else { OneClash(types, routes, j, i); }
    } else {
      forall i, j | 0 <= i < j < |routes| ensures OperationId(types, routes, i) != OperationId(types, routes, j) {
        OneClash(types, routes, i, j);
      }
    }
  }

  function Listed(name: string, symbolID: string): Route {
    Route("Orders", name, symbolID, "GET", "/" + symbolID, true, false, false, false, [], Basic(Text))
  }

  lemma CountNext(routes: seq<Route>, route: Route, id: string)
    ensures CountId(routes + [route], id) == CountId(routes, id) + (if BaseId(route) == id then 1 else 0)
  {
    assert (routes + [route])[..|routes|] == routes;
  }

  lemma CountThree(x: Route, y: Route, z: Route, id: string)
    ensures CountId([x, y, z], id)
            == (if BaseId(x) == id then 1 else 0) + (if BaseId(y) == id then 1 else 0)
               + (if BaseId(z) == id then 1 else 0)
  {
    CountNext([], x, id);
    CountNext([x], y, id);
    CountNext([x, y], z, id);
    assert [] + [x] == [x] && [x] + [y] == [x, y] && [x, y] + [z] == [x, y, z];
  }

  /** Whatever the hash: two lists and a third operation named after the first one's identifier. */
  lemma OperationIdsCanClash(types: Types)
    requires types.hash("a") != types.hash("b") && types.hash("b") != types.hash("c")
    requires types.hash("a") != types.hash("c")
    ensures var routes := [Listed("List", "a"), Listed("List", "b"), Listed("List_" + types.hash("a"), "c")];
            DistinctSymbols(types, routes) && OperationId(types, routes, 0) == OperationId(types, routes, 2)
  {
    var x, y, z := Listed("List", "a"), Listed("List", "b"), Listed("List_" + types.hash("a"), "c");
    var routes := [x, y, z];
    var a, c := BaseId(x), BaseId(z);
    CountThree(x, y, z, a);
    CountThree(x, y, z, c);
    ClashingNames(types.hash("a"));
    assert OperationId(types, routes, 0) == a + "_" + types.hash(x.symbolID);
    assert OperationId(types, routes, 2) == c;
    assert routes[0].symbolID == "a" && routes[1].symbolID == "b" && routes[2].symbolID == "c";
  }

  lemma ClashingNames(hash: string)
    ensures var a, c := BaseId(Listed("List", "a")), BaseId(Listed("List_" + hash, "c"));
            c == a + "_" + hash && c != a && BaseId(Listed("List", "b")) == a
  {
    var a, c := BaseId(Listed("List", "a")), BaseId(Listed("List_" + hash, "c"));
    assert a == "Orders" + "_" + "List" && c == "Orders" + "_" + ("List_" + hash);
    assert "List_" == "List" + "_";
    assert |c| > |a|;
  }

  // ----- The document ----------------------------------------------------------------------------

  /** Counts the names, and looks for a protected route. */
  method CountIds(routes: seq<Route>) returns (counts: map<string, nat>, protected: bool)
    ensures forall id :: (if id in counts then counts[id] else 0) == CountId(routes, id)
    ensures protected <==> exists i :: 0 <= i < |routes| && routes[i].authorized
  {
    counts, protected := map[], false;
    for i := 0 to |routes|
      invariant forall id :: (if id in counts then counts[id] else 0) == CountId(routes[..i], id)
      invariant protected <==> exists k :: 0 <= k < i && routes[k].authorized
    {
      var id := BaseId(routes[i]);
      assert routes[..i+1][..i] == routes[..i];
      counts := counts[id := (if id in counts then counts[id] else 0) + 1];
      if routes[i].authorized { protected := true; }
    }
    assert routes[..|routes|] == routes;
  }

  /** The last route with this path and method. */
  function LastAt(routes: seq<Route>, lower: string -> string, path: string, verb: string): (r: Option<nat>)
    ensures r.Some? ==> r.value < |routes|
  {
    if routes == [] then None
    else if routes[|routes|-1].path == path && lower(routes[|routes|-1].httpMethod) == verb then Some(|routes| - 1)
    else LastAt(routes[..|routes|-1], lower, path, verb)
  }

  function Entry(paths: map<string, map<string, Operation>>, path: string, verb: string): Option<Operation> {
    if path in paths && verb in paths[path] then Some(paths[path][verb]) else None
  }

  ghost predicate AllShown(types: Types, routes: seq<Route>) {
    forall i :: 0 <= i < |routes| ==> Shown(types, routes[i]) <= types.named.Keys
  }

  ghost function RouteOperation(types: Types, routes: seq<Route>, i: nat): Operation
    requires i < |routes| && AllShown(types, routes)
  {
    OperationOf(types, routes[i], OperationId(types, routes, i))
  }

  /** Every path and method holds the operation of the last route that claims it. */
  ghost predicate PathsAre(types: Types, routes: seq<Route>, lower: string -> string,
                           paths: map<string, map<string, Operation>>, n: nat)
    requires n <= |routes| && AllShown(types, routes)
  {
    forall path, verb :: Entry(paths, path, verb) ==
      var last := LastAt(routes[..n], lower, path, verb);
      if last.None? then None else Some(RouteOperation(types, routes, last.value))
  }

  ghost function Roots(types: Types, routes: seq<Route>): set<string> {
    if routes == [] then {} else Roots(types, routes[..|routes|-1]) + Shown(types, routes[|routes|-1])
  }

  /** The problem schema and exactly the reachable named types, each with its own structure. */
  ghost predicate ComponentsAre(types: Types, roots: set<string>, schemas: map<string, Schema>) {
    && "SpiceProblem" in schemas && schemas["SpiceProblem"] == ProblemSchema()
    && (forall name :: name in schemas ==> name == "SpiceProblem" || exists key :: ComponentOf(types, roots, key, name))
    && (forall key :: Reaches(types, roots, key) ==>
          && key in types.named && ComponentName(types, key) in schemas
          && Mentions(types, types.named[key].underlying) <= types.named.Keys
          && schemas[ComponentName(types, key)] == Shape(types, types.named[key].underlying))
  }

  ghost predicate ComponentOf(types: Types, roots: set<string>, key: string, name: string) {
    Reaches(types, roots, key) && key in types.named && ComponentName(types, key) == name
  }

  ghost predicate AllResolve(doc: Document) {
    && (forall name :: name in doc.schemas ==> Resolves(doc.schemas[name], doc.schemas.Keys))
    && (forall path, verb :: Entry(doc.paths, path, verb).Some? ==>
          OperationResolves(Entry(doc.paths, path, verb).value, doc.schemas.Keys))
  }

  method RenderOpenApi(types: Types, routes: seq<Route>, lower: string -> string) returns (doc: Document)
    requires Complete(types) && HashTellsApart(types) && AllShown(types, routes)
    ensures ComponentsAre(types, Roots(types, routes), doc.schemas)
    ensures PathsAre(types, routes, lower, doc.paths, |routes|)
    ensures AllResolve(doc)
    ensures doc.bearer <==> exists i :: 0 <= i < |routes| && routes[i].authorized
  {
    hide Complete, HashTellsApart, Reaches, Sound, Mentions, Shown, OperationOf, LastAt, PathsAre, ComponentsAre,
         AllResolve, AllShown, Roots;
    var builder := new Builder(types);
    FreshBuilder(types);
    var paths: map<string, map<string, Operation>> := map[];
    var counts, protected := CountIds(routes);
    NoRoutes(types, routes, lower);
    for i := 0 to |routes|
      invariant builder.Valid() && builder.open == {} && builder.types == types
      invariant builder.Added({}, Roots(types, routes[..i])) && Roots(types, routes[..i]) <= builder.done
      invariant PathsAre(types, routes, lower, paths, i)
    {
      var route := routes[i];
      var id := BaseId(route);
      RouteShown(types, routes, i);
      assert id in counts;
      if counts[id] > 1 { id := id + "_" + types.hash(route.symbolID); }
      ghost var begun := builder.done;
      var op := BuildOperation(builder, route, id);
      MoreShown(types, {}, begun, builder.done, Roots(types, routes[..i]), Shown(types, route));
      var item := if route.path in paths then paths[route.path] else map[];
      PathAdded(types, routes, lower, paths, i, op);
      paths := paths[route.path := item[lower(route.httpMethod) := op]];
    }
    assert routes[..|routes|] == routes;
    doc := Document(paths, builder.components, protected);
    ComponentsFinished(types, Roots(types, routes), builder.components, builder.done);
    EverythingResolves(types, routes, lower, doc, builder.done);
  }

  lemma FreshBuilder(types: Types)
    ensures Sound(types, map["SpiceProblem" := ProblemSchema()], {}, {})
  {
  }

  lemma NoRoutes(types: Types, routes: seq<Route>, lower: string -> string)
    requires AllShown(types, routes)
    ensures Roots(types, routes[..0]) == {} && PathsAre(types, routes, lower, map[], 0)
  {
  }

  lemma RouteShown(types: Types, routes: seq<Route>, i: nat)
    requires AllShown(types, routes) && i < |routes|
    ensures Shown(types, routes[i]) <= types.named.Keys
    ensures Roots(types, routes[..i+1]) == Roots(types, routes[..i]) + Shown(types, routes[i])
    ensures CountId(routes, BaseId(routes[i])) >= 1
  {
    assert routes[..i+1][..i] == routes[..i];
    CountedOnce(routes, i);
  }

  lemma EntryUpdated(paths: map<string, map<string, Operation>>, path: string, verb: string, op: Operation, p: string,
                     v: string)
    ensures var item := if path in paths then paths[path] else map[];
            Entry(paths[path := item[verb := op]], p, v)
            == if p == path && v == verb then Some(op) else Entry(paths, p, v)
  {
  }

  lemma LastGrows(routes: seq<Route>, lower: string -> string, i: nat, p: string, v: string)
    requires i < |routes|
    ensures LastAt(routes[..i+1], lower, p, v)
            == if p == routes[i].path && v == lower(routes[i].httpMethod) then Some(i)
               else LastAt(routes[..i], lower, p, v)
  {
    assert routes[..i+1][..i] == routes[..i];
  }

  lemma PathAdded(types: Types, routes: seq<Route>, lower: string -> string,
                  paths: map<string, map<string, Operation>>, i: nat, op: Operation)
    requires i < |routes| && AllShown(types, routes) && PathsAre(types, routes, lower, paths, i)
    requires op == RouteOperation(types, routes, i)
    ensures var item := if routes[i].path in paths then paths[routes[i].path] else map[];
            PathsAre(types, routes, lower, paths[routes[i].path := item[lower(routes[i].httpMethod) := op]], i + 1)
  {
    hide OperationOf, Shown, Entry, LastAt;
    var item := if routes[i].path in paths then paths[routes[i].path] else map[];
    var more := paths[routes[i].path := item[lower(routes[i].httpMethod) := op]];
    forall p, v ensures Entry(more, p, v) ==
      var last := LastAt(routes[..i+1], lower, p, v);
      if last.None? then None else Some(RouteOperation(types, routes, last.value))
    {
      EntryUpdated(paths, routes[i].path, lower(routes[i].httpMethod), op, p, v);
      LastGrows(routes, lower, i, p, v);
    }
  }

  lemma ComponentsFinished(types: Types, roots: set<string>, components: map<string, Schema>, done: set<string>)
    requires Sound(types, components, done, {}) && roots <= done
    requires forall key :: key in done ==> Reaches(types, roots, key)
    ensures ComponentsAre(types, roots, components)
  {
    assert done + {} == done;
    forall key | key in done ensures Finished(types, components, done, key) {}
    forall key | Reaches(types, roots, key)
      ensures key in done
    {
      ReachableIsInside(types, done, roots, key);
    }
    forall name | name in components && name != "SpiceProblem"
      ensures exists key :: ComponentOf(types, roots, key, name)
    {
      var key :| key in done && ComponentName(types, key) == name;
      assert ComponentOf(types, roots, key, name);
    }
  }

  lemma EverythingResolves(types: Types, routes: seq<Route>, lower: string -> string, doc: Document, done: set<string>)
    requires AllShown(types, routes) && Sound(types, doc.schemas, done, {}) && Roots(types, routes) <= done
    requires PathsAre(types, routes, lower, doc.paths, |routes|)
    ensures AllResolve(doc)
  {
    hide Mentions, Shape, OperationOf, LastAt, Shown;
    var names := doc.schemas.Keys;
    assert done + {} == done;
    forall key | key in done ensures Finished(types, doc.schemas, done, key) {}
    assert Covered(types, done, names);
    forall name | name in doc.schemas ensures Resolves(doc.schemas[name], names) {
      if name != "SpiceProblem" {
        var key :| key in done && ComponentName(types, key) == name;
        LessCovered(types, Mentions(types, types.named[key].underlying), done, names);
        ShapeResolves(types, types.named[key].underlying, names);
      }
    }
    assert routes[..|routes|] == routes;
    forall path, verb | Entry(doc.paths, path, verb).Some?
      ensures OperationResolves(Entry(doc.paths, path, verb).value, names)
    {
      var i := LastAt(routes, lower, path, verb).value;
      RootsShow(types, routes, i);
      LessCovered(types, Shown(types, routes[i]), done, names);
      OperationOfResolves(types, routes[i], OperationId(types, routes, i), names);
    }
  }

  lemma {:induction false} RootsShow(types: Types, routes: seq<Route>, i: nat)
    requires i < |routes|
    ensures Shown(types, routes[i]) <= Roots(types, routes)
  {
    if i < |routes| - 1 {
      RootsShow(types, routes[..|routes|-1], i);
      assert routes[..|routes|-1][i] == routes[i];
    }
  }

  // ----- Independence of the order ---------------------------------------------------------------

  lemma ComponentsAreDetermined(types: Types, roots: set<string>, a: map<string, Schema>, b: map<string, Schema>)
    requires ComponentsAre(types, roots, a) && ComponentsAre(types, roots, b)
    ensures a == b
  {
    forall name ensures name in a <==> name in b {
      if name in a && name != "SpiceProblem" { var key :| ComponentOf(types, roots, key, name); }
      if name in b && name != "SpiceProblem" { var key :| ComponentOf(types, roots, key, name); }
    }
    forall name | name in a ensures a[name] == b[name] {
      if name != "SpiceProblem" { var key :| ComponentOf(types, roots, key, name); }
    }
  }

  lemma {:induction false} RootMember(types: Types, routes: seq<Route>, key: string)
    ensures key in Roots(types, routes) <==> exists i :: 0 <= i < |routes| && key in Shown(types, routes[i])
  {
    if routes != [] {
      var init := routes[..|routes|-1];
      RootMember(types, init, key);
      if key in Roots(types, init) {
        var i :| 0 <= i < |init| && key in Shown(types, init[i]);
        assert routes[i] == init[i];
      }
      if i :| 0 <= i < |routes| && key in Shown(types, routes[i]) {
        if i < |init| { assert init[i] == routes[i]; }
      }
    }
  }

  /** The same routes in any order give the same components. */
  lemma ComponentsIgnoreOrder(types: Types, routes: seq<Route>, permuted: seq<Route>, a: map<string, Schema>,
                              b: map<string, Schema>)
    requires multiset(routes) == multiset(permuted)
    requires ComponentsAre(types, Roots(types, routes), a) && ComponentsAre(types, Roots(types, permuted), b)
    ensures a == b
  {
    Sorting.SameElements(routes, permuted);
    forall key ensures key in Roots(types, routes) <==> key in Roots(types, permuted) {
      RootMember(types, routes, key);
      RootMember(types, permuted, key);
      if i :| 0 <= i < |routes| && key in Shown(types, routes[i]) { assert routes[i] in permuted; }
      if i :| 0 <= i < |permuted| && key in Shown(types, permuted[i]) { assert permuted[i] in routes; }
    }
    assert Roots(types, routes) == Roots(types, permuted);
    ComponentsAreDetermined(types, Roots(types, routes), a, b);
  }
}
