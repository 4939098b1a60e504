/**
 * The generated constructor body: declarations, uses and their scopes (compiler/generate/provider_render.go,
 * policy_render.go).
 */
module ConstructorRendering {
  import opened Catalog
  import opened Digraph
  import opened InputRendering
  import opened PolicyOrder

  // ----- Statements ------------------------------------------------------------------------------

  datatype Statement =
    | Factory(name: string, args: seq<Expr>)
    | NewProvider(name: string, factory: string)
    | NewScope(name: string, factory: string, session: bool)
    | ProviderOfScope(name: string, scope: string)
    | Construct(name: string, cleanup: string, args: seq<Expr>, overridable: bool)
    | RegisterCleanup(cleanup: string)
    | Bind(name: string)
    | NewTopic(name: string, receivers: seq<string>)
    | Publish(name: string, topic: string)
    | UseLogger(name: string)
    | Decorate(name: string, target: string, manager: Option<string>, authorized: bool)
    | Keep(name: string)

  function ArgNames(args: seq<Expr>): set<string> { set e, n | e in args && n in InputRendering.Names(e) :: n }

  function Declares(s: Statement): set<string> {
    match s
    case Factory(name, _) => {name}
    case NewProvider(name, _) => {name}
    case NewScope(name, _, _) => {name}
    case ProviderOfScope(name, _) => {name}
    case Construct(name, cleanup, _, _) => {name, cleanup}
    case Bind(name) => {name}
    case NewTopic(name, _) => {name}
    case Publish(name, _) => {name}
    case UseLogger(name) => {name}
    case Decorate(name, _, _, _) => {name}
    case RegisterCleanup(_) => {}
    case Keep(_) => {}
  }

  /** The local variables and parameters a statement mentions. */
  function Uses(s: Statement): set<string> {
    match s
    case Factory(_, args) => ArgNames(args)
    case NewProvider(_, factory) => {factory}
    case NewScope(_, factory, _) => {factory}
    case ProviderOfScope(_, scope) => {scope}
    case Construct(_, _, args, overridable) => ArgNames(args) + {"application", "ctx"}
                                               + (if overridable then {"options"} else {})
    case RegisterCleanup(cleanup) => {cleanup, "application", "ctx"}
    case Bind(_) => {"configurationSnapshot", "application", "ctx"}
    case NewTopic(_, receivers) => (set n | n in receivers) + {"options", "application", "ctx"}
    case Publish(_, topic) => {topic}
    case UseLogger(_) => {"application"}
    case Decorate(_, target, manager, authorized) =>
      {target, "options", "configurationSnapshot", "application", "ctx"}
      + (if manager.Some? then {manager.value} else {})
      + (if authorized then {"authorizer"} else {})
    case Keep(name) => {name}
  }

  function Declared(body: seq<Statement>): set<string> { set s, n | s in body && n in Declares(s) :: n }

  /** Every variable is a parameter or declared by an earlier statement. */
  ghost predicate WellScoped(body: seq<Statement>, params: set<string>) {
    forall i :: 0 <= i < |body| ==> Uses(body[i]) <= params + Declared(body[..i])
  }

  function Parameters(authorization: bool): set<string> {
    {"ctx", "application", "options", "configurationSnapshot"} + (if authorization then {"authorizer"} else {})
  }

  // ----- What the writers look things up in ------------------------------------------------------

  /**
   * Compiled metadata: adapters, configuration types, topics with their listeners' providers, override fields,
   * authorized services.
   */
  datatype Metadata = Metadata(adapters: set<string>, configurations: set<string>, topics: map<string, seq<string>>,
                               overridable: set<string>, authorized: set<string>)

  datatype Context = Context(
    meta: Metadata,
    args: map<string, seq<Expr>>,
    local: map<string, string>,
    exposed: map<string, string>,
    services: map<string, Service>)

  datatype Fault =
    | NoAdapter(id: string)
    | NoConfiguration(id: string)
    | NoTopic(id: string)
    | UnknownListener(id: string, listener: string)

  function LocalOf(c: Context, id: string): string { if id in c.local then c.local[id] else "" }

  function ExposedOf(c: Context, id: string): string { if id in c.exposed then c.exposed[id] else "" }

  function ArgsFor(c: Context, id: string): seq<Expr> { if id in c.args then c.args[id] else [] }

  // ----- Writers ---------------------------------------------------------------------------------

  function ScopedAdapter(c: Context, item: Provider): seq<Statement> {
    var v := LocalOf(c, item.symbolID);
    [Factory(v + "Factory", ArgsFor(c, item.symbolID))]
    + (if item.scope == Prototype then [NewProvider(v, v + "Factory")]
       else [NewScope(v + "Scope", v + "Factory", item.scope == Session), ProviderOfScope(v, v + "Scope")])
    + [Keep(v)]
  }

  function AdapterCall(c: Context, item: Provider): seq<Statement> {
    var v := LocalOf(c, item.symbolID);
    [Construct(v, v + "Cleanup", ArgsFor(c, item.symbolID), item.symbolID in c.meta.overridable),
     RegisterCleanup(v + "Cleanup"), Keep(v)]
  }

  function ReceiversOf(c: Context, listeners: seq<string>): (r: seq<string>)
    ensures |r| == |listeners|
  {
    seq(|listeners|, i requires 0 <= i < |listeners| => LocalOf(c, listeners[i]))
  }

  function EventProvider(c: Context, item: Provider, listeners: seq<string>): seq<Statement> {
    var v := LocalOf(c, item.symbolID);
    [NewTopic(v + "Topic", ReceiversOf(c, listeners)), Publish(v, v + "Topic"), Keep(v)]
  }

  function PolicyConstruction(c: Context, item: Provider): seq<Statement> {
    if item.symbolID !in c.services then []
    else
      var service := c.services[item.symbolID];
      [Decorate(ExposedOf(c, item.symbolID), LocalOf(c, item.symbolID),
                if service.managerID != "" then Some(LocalOf(c, service.managerID)) else None,
                item.symbolID in c.meta.authorized),
       Keep(ExposedOf(c, item.symbolID))]
  }

  function FaultOf(c: Context, item: Provider): Option<Fault> {
    var id := item.symbolID;
    if item.scope != Singleton then if id in c.meta.adapters then None else Some(NoAdapter(id))
    else
      match item.source
      case Configuration =>
        if id !in c.meta.configurations then
          Some(NoConfiguration(id))
        else if id !in c.meta.adapters then Some(NoAdapter(id)) else None
      case Event =>
        if id !in c.meta.topics then Some(NoTopic(id)) else FirstUnknown(c, id, c.meta.topics[id])
      case Logging => None
      case _ => if id in c.meta.adapters then None else Some(NoAdapter(id))
  }

  function FirstUnknown(c: Context, id: string, listeners: seq<string>): Option<Fault> {
    if listeners == [] then None
    else if LocalOf(c, listeners[0]) == "" then Some(UnknownListener(id, listeners[0]))
    else FirstUnknown(c, id, listeners[1..])
  }

  /**
   * What a provider must have in the metadata: an adapter if anything of it is called, its configuration type, its
   * topic with a variable for every listener.
   */
  ghost predicate WrittenFrom(c: Context, item: Provider) {
    var id := item.symbolID;
    && (item.scope != Singleton || item.source !in {Event, Logging} ==> id in c.meta.adapters)
    && (item.scope == Singleton && item.source == Configuration ==> id in c.meta.configurations)
    && (item.scope == Singleton && item.source == Event ==>
          id in c.meta.topics && forall listener :: listener in c.meta.topics[id] ==> LocalOf(c, listener) != "")
  }

  lemma {:induction false} AllKnown(c: Context, id: string, listeners: seq<string>)
    ensures FirstUnknown(c, id, listeners) == None <==>
            forall listener :: listener in listeners ==> LocalOf(c, listener) != ""
  {
    if listeners != [] {
      AllKnown(c, id, listeners[1..]);
      assert listeners == [listeners[0]] + listeners[1..];
    }
  }

  lemma NoFaultIff(c: Context, item: Provider)
    ensures FaultOf(c, item) == None <==> WrittenFrom(c, item)
  {
    if item.symbolID in c.meta.topics { AllKnown(c, item.symbolID, c.meta.topics[item.symbolID]); }
  }

  /** Everything written for one provider: its own statements, then its policy decorator. */
  function Block(c: Context, item: Provider): seq<Statement> {
    var id := item.symbolID;
    var v := LocalOf(c, id);
    if item.scope != Singleton then ScopedAdapter(c, item)
    else
      (match item.source
       case Configuration => [Bind(v), Keep(v)]
       case Event => EventProvider(c, item, if id in c.meta.topics then c.meta.topics[id] else [])
       case Logging => [UseLogger(v), Keep(v)]
       case _ => AdapterCall(c, item))
      + PolicyConstruction(c, item)
  }

  function Body(c: Context, items: seq<Provider>): seq<Statement> {
    if items == [] then [] else Body(c, items[..|items|-1]) + Block(c, items[|items|-1])
  }

  /** Writes the providers in order, stopping at the first one without its metadata. */
  method WriteProviders(c: Context, items: seq<Provider>) returns (source: seq<Statement>, fault: Option<Fault>)
    ensures fault.None? <==> forall i :: 0 <= i < |items| ==> FaultOf(c, items[i]) == None
    ensures fault.None? ==> source == Body(c, items) && WritesEach(c, items, source)
    ensures fault.Some? ==> exists i :: 0 <= i < |items| && FaultOf(c, items[i]) == fault
  {
    hide FaultOf, Block, WritesEach, Serves, WrittenFrom;
    BodyServes(c, items);
    source, fault := [], None;
    for i := 0 to |items|
      invariant fault == None && (forall j :: 0 <= j < i ==> FaultOf(c, items[j]) == None)
      invariant source == Body(c, items[..i])
    {
      var block;
      block, fault := WriteProvider(c, items[i]);
      if fault.Some? { return; }
      assert items[..i+1][..i] == items[..i];
      source := source + block;
    }
    assert items[..|items|] == items;
  }

  method WriteProvider(c: Context, item: Provider) returns (source: seq<Statement>, fault: Option<Fault>)
    ensures fault == FaultOf(c, item) && (fault.None? <==> WrittenFrom(c, item))
    ensures fault.None? ==> source == Block(c, item) && Serves(c, item, source)
  {
    hide ScopedAdapter, AdapterCall, PolicyConstruction, Serves, WrittenFrom;
    BlockServes(c, item);
    NoFaultIff(c, item);
    var id := item.symbolID;
    var variable := LocalOf(c, id);
    if item.scope != Singleton {
      if id !in c.meta.adapters { return [], Some(NoAdapter(id)); }
      return ScopedAdapter(c, item), None;
    }
    source := [];
    match item.source {
      case Configuration =>
        if id !in c.meta.configurations { return [], Some(NoConfiguration(id)); }
        if id !in c.meta.adapters { return [], Some(NoAdapter(id)); }
        source := [Bind(variable), Keep(variable)];
      case Event =>
        if id !in c.meta.topics { return [], Some(NoTopic(id)); }
        source, fault := WriteEventProvider(c, item, c.meta.topics[id]);
        if fault.Some? { return; }
      case Logging =>
        source := [UseLogger(variable), Keep(variable)];
      case _ =>
        if id !in c.meta.adapters { return [], Some(NoAdapter(id)); }
        source := AdapterCall(c, item);
    }
    fault := None;
    source := source + PolicyConstruction(c, item);
  }

  method WriteEventProvider(c: Context, item: Provider, listeners: seq<string>)
      returns (source: seq<Statement>, fault: Option<Fault>)
    ensures fault == FirstUnknown(c, item.symbolID, listeners)
    ensures fault.None? ==> source == EventProvider(c, item, listeners)
  {
    var variable := LocalOf(c, item.symbolID);
    var receivers := [];
    source, fault := [], None;
    for i := 0 to |listeners|
      invariant FirstUnknown(c, item.symbolID, listeners) == FirstUnknown(c, item.symbolID, listeners[i..])
      invariant |receivers| == i && forall j :: 0 <= j < i ==> receivers[j] == LocalOf(c, listeners[j])
    {
      var receiver := LocalOf(c, listeners[i]);
      assert listeners[i..][0] == listeners[i] && listeners[i..][1..] == listeners[i+1..];
      if receiver == "" { return [], Some(UnknownListener(item.symbolID, listeners[i])); }
      receivers := receivers + [receiver];
    }
    assert receivers == ReceiversOf(c, listeners);
    source := [NewTopic(variable + "Topic", receivers), Publish(variable, variable + "Topic"), Keep(variable)];
  }

  // ----- What is written -------------------------------------------------------------------------

  /** Makes the value a provider stands for. */
  predicate Makes(s: Statement) {
    s.Construct? || s.Bind? || s.Publish? || s.UseLogger? || s.NewProvider? || s.ProviderOfScope?
  }

  /**
   * Statement i makes the provider's value, from what the provider was given. A constructed value is followed at
   * once by the registration of its cleanup; a factory, scope or topic stands right before the value taken from it.
   */
  ghost predicate MadeAt(c: Context, item: Provider, part: seq<Statement>, i: int) {
    var id, v := item.symbolID, LocalOf(c, item.symbolID);
    var args := if id in c.args then c.args[id] else [];
    && 0 <= i < |part|
    && match item.scope
       case Prototype =>
         i >= 1 && part[i-1].Factory? && part[i-1].args == args && part[i] == NewProvider(v, part[i-1].name)
       case Singleton =>
         (match item.source
          case Configuration => part[i] == Bind(v)
          case Logging => part[i] == UseLogger(v)
          case Event =>
            && i >= 1 && part[i-1].NewTopic? && part[i] == Publish(v, part[i-1].name)
            && ReachesAll(c, if id in c.meta.topics then c.meta.topics[id] else [], part[i-1].receivers)
          case _ =>
            && part[i].Construct? && part[i].name == v && part[i].args == args
            && (part[i].overridable <==> id in c.meta.overridable)
            && i + 1 < |part| && part[i+1] == RegisterCleanup(part[i].cleanup))
       case _ =>
         && i >= 2 && part[i-2].Factory? && part[i-2].args == args
         && part[i-1].NewScope? && part[i-1].factory == part[i-2].name
         && (part[i-1].session <==> item.scope == Session) && part[i] == ProviderOfScope(v, part[i-1].name)
  }

  ghost predicate ReachesAll(c: Context, listeners: seq<string>, receivers: seq<string>) {
    |receivers| == |listeners| && forall i :: 0 <= i < |listeners| ==> receivers[i] == LocalOf(c, listeners[i])
  }

  /** Statement j wraps the provider's value for its service, inside the service's own transaction manager. */
  ghost predicate DecoratedAt(c: Context, item: Provider, part: seq<Statement>, j: int) {
    var id := item.symbolID;
    && 0 <= j < |part| && part[j].Decorate? && id in c.services
    && part[j].name == (if id in c.exposed then c.exposed[id] else "") && part[j].target == LocalOf(c, id)
    && (part[j].authorized <==> id in c.meta.authorized)
    && match part[j].manager
       case None => c.services[id].managerID == ""
       case Some(manager) => c.services[id].managerID != "" && manager == LocalOf(c, c.services[id].managerID)
  }

  ghost predicate UsedAfter(part: seq<Statement>, i: int, n: string) {
    exists j :: 0 <= j < |part| && i < j && n in Uses(part[j])
  }

  /** No variable is declared and not used. */
  ghost predicate AllUsed(part: seq<Statement>) {
    forall i, n :: 0 <= i < |part| && n in Declares(part[i]) ==> UsedAfter(part, i, n)
  }

  /**
   * The statements of one provider: its value is made exactly once, a service's value is decorated exactly once
   * after that, and only what was constructed just before is registered for cleanup.
   */
  ghost predicate Serves(c: Context, item: Provider, part: seq<Statement>) {
    && AllUsed(part) && CleanupsFollow(part) && (exists i :: MadeOnce(c, item, part, i))
    && (if item.scope == Singleton && item.symbolID in c.services
        then exists j :: DecoratedAt(c, item, part, j) && OnlyDecoration(part, j)
        else NoDecoration(part))
  }

  ghost predicate MadeOnce(c: Context, item: Provider, part: seq<Statement>, i: int) {
    MadeAt(c, item, part, i) && forall h :: 0 <= h < |part| ==>
      (Makes(part[h]) <==> h == i) && (part[h].Decorate? ==> i < h)
  }

  ghost predicate CleanupsFollow(part: seq<Statement>) {
    forall i :: 0 <= i < |part| && part[i].RegisterCleanup? ==>
      i > 0 && part[i-1].Construct? && part[i-1].cleanup == part[i].cleanup
  }

  ghost predicate OnlyDecoration(part: seq<Statement>, j: int) {
    forall h :: 0 <= h < |part| ==> (part[h].Decorate? <==> h == j)
  }

  ghost predicate NoDecoration(part: seq<Statement>) { forall h :: 0 <= h < |part| ==> !part[h].Decorate? }

  /** The body falls into one part for every provider, in their order. */
  ghost predicate ServesEach(c: Context, items: seq<Provider>, body: seq<Statement>, cuts: seq<int>) {
    && |cuts| == |items| + 1 && cuts[0] == 0 && cuts[|items|] == |body|
    && forall k :: 0 <= k < |items| ==> ServesPart(c, items[k], body, cuts[k..k+2])
  }

  ghost predicate ServesPart(c: Context, item: Provider, body: seq<Statement>, ends: seq<int>) {
    |ends| == 2 && 0 <= ends[0] <= ends[1] <= |body| && Serves(c, item, body[ends[0]..ends[1]])
  }

  ghost predicate WritesEach(c: Context, items: seq<Provider>, body: seq<Statement>) {
    AllUsed(body) && exists cuts :: ServesEach(c, items, body, cuts)
  }

  lemma UsedAppend(a: seq<Statement>, b: seq<Statement>)
    requires AllUsed(a) && AllUsed(b)
    ensures AllUsed(a + b)
  {
    forall i, n | 0 <= i < |a + b| && n in Declares((a + b)[i]) ensures UsedAfter(a + b, i, n) {
      if i < |a| {
        var j :| i < j < |a| && n in Uses(a[j]) by { assert UsedAfter(a, i, n); }
        assert (a + b)[j] == a[j];
      } else {
        var j :| i - |a| < j < |b| && n in Uses(b[j]) by { assert UsedAfter(b, i - |a|, n); }
        assert (a + b)[j + |a|] == b[j];
      }
    }
  }

  /** A part without its decoration. */
  ghost predicate ServesPlain(c: Context, item: Provider, own: seq<Statement>) {
    AllUsed(own) && CleanupsFollow(own) && NoDecoration(own) && exists i :: MadeOnce(c, item, own, i)
  }

  lemma ScopedAdapterServes(c: Context, item: Provider)
    requires item.scope != Singleton
    ensures ServesPlain(c, item, ScopedAdapter(c, item))
  {
    var part := ScopedAdapter(c, item);
    var last := |part| - 2;
    forall i, n | 0 <= i < |part| && n in Declares(part[i]) ensures UsedAfter(part, i, n) {
      assert n in Uses(part[i+1]);
    }
    assert MadeOnce(c, item, part, last);
  }

  lemma AdapterCallServes(c: Context, item: Provider)
    requires item.scope == Singleton && item.source !in {Configuration, Event, Logging}
    ensures ServesPlain(c, item, AdapterCall(c, item))
  {
    var part := AdapterCall(c, item);
    forall i, n | 0 <= i < |part| && n in Declares(part[i]) ensures UsedAfter(part, i, n) {
      assert n in Uses(part[1]) || n in Uses(part[2]);
    }
    assert MadeOnce(c, item, part, 0);
  }

  lemma EventProviderServes(c: Context, item: Provider)
    requires item.scope == Singleton && item.source == Event
    ensures ServesPlain(c, item, EventProvider(c, item, if item.symbolID in c.meta.topics
                                                       then c.meta.topics[item.symbolID] else []))
  {
    var part := EventProvider(c, item, if item.symbolID in c.meta.topics then c.meta.topics[item.symbolID] else []);
    forall i, n | 0 <= i < |part| && n in Declares(part[i]) ensures UsedAfter(part, i, n) {
      assert n in Uses(part[i+1]);
    }
    assert MadeOnce(c, item, part, 1);
  }

  lemma TwoServe(c: Context, item: Provider, first: Statement)
    requires item.scope == Singleton
    requires (item.source == Configuration && first == Bind(LocalOf(c, item.symbolID)))
             || (item.source == Logging && first == UseLogger(LocalOf(c, item.symbolID)))
    ensures ServesPlain(c, item, [first, Keep(LocalOf(c, item.symbolID))])
  {
    var part := [first, Keep(LocalOf(c, item.symbolID))];
    forall i, n | 0 <= i < |part| && n in Declares(part[i]) ensures UsedAfter(part, i, n) {
      assert n in Uses(part[1]);
    }
    assert MadeOnce(c, item, part, 0);
  }

  /** A decoration behind a plain part of a singleton. */
  lemma DecorationServes(c: Context, item: Provider, own: seq<Statement>)
    requires item.scope == Singleton && ServesPlain(c, item, own)
    ensures Serves(c, item, own + PolicyConstruction(c, item))
  {
    var policy := PolicyConstruction(c, item);
    var part := own + policy;
    hide AllUsed;
    PolicyUsed(c, item);
    UsedAppend(own, policy);
    var i :| MadeOnce(c, item, own, i);
    assert forall h :: 0 <= h < |own| ==> part[h] == own[h];
    assert forall h :: |own| <= h < |part| ==> part[h] == policy[h-|own|];
    MadeOnceAppend(c, item, own, policy, i);
    if item.symbolID in c.services { assert DecoratedAt(c, item, part, |own|) && OnlyDecoration(part, |own|); }
  }

  lemma PolicyUsed(c: Context, item: Provider)
    ensures AllUsed(PolicyConstruction(c, item))
  {
    var policy := PolicyConstruction(c, item);
    forall i, n | 0 <= i < |policy| && n in Declares(policy[i]) ensures UsedAfter(policy, i, n) {
      assert n in Uses(policy[1]);
    }
  }

  lemma MadeOnceAppend(c: Context, item: Provider, own: seq<Statement>, more: seq<Statement>, i: int)
    requires MadeOnce(c, item, own, i)
    requires forall h :: 0 <= h < |more| ==> !Makes(more[h])
    ensures MadeOnce(c, item, own + more, i)
  {
    var part := own + more;
    assert forall h :: 0 <= h < |own| ==> part[h] == own[h];
    assert forall h :: |own| <= h < |part| ==> part[h] == more[h-|own|];
  }

  /** The statements written for a provider serve it and nothing else. */
  lemma BlockServes(c: Context, item: Provider)
    ensures Serves(c, item, Block(c, item))
  {
    hide ServesPlain, ScopedAdapter, AdapterCall, EventProvider, PolicyConstruction, Serves;
    if item.scope != Singleton {
      ScopedAdapterServes(c, item);
      PlainServes(c, item, Block(c, item));
    } else {
      var v := LocalOf(c, item.symbolID);
      match item.source {
        case Configuration =>
          TwoServe(c, item, Bind(v));
          DecorationServes(c, item, [Bind(v), Keep(v)]);
        case Logging =>
          TwoServe(c, item, UseLogger(v));
          DecorationServes(c, item, [UseLogger(v), Keep(v)]);
        case Event =>
          var listeners := if item.symbolID in c.meta.topics then c.meta.topics[item.symbolID] else [];
          EventProviderServes(c, item);
          DecorationServes(c, item, EventProvider(c, item, listeners));
        case _ =>
          AdapterCallServes(c, item);
          DecorationServes(c, item, AdapterCall(c, item));
      }
    }
  }

  lemma PlainServes(c: Context, item: Provider, own: seq<Statement>)
    requires item.scope != Singleton && ServesPlain(c, item, own)
    ensures Serves(c, item, own)
  {
  }

  /** The whole body serves every listed provider, each with a part of its own, in order. */
  lemma {:induction false} BodyServes(c: Context, items: seq<Provider>)
    ensures WritesEach(c, items, Body(c, items))
  {
    hide Serves, AllUsed, Block;
    if items == [] {
      NothingUnused();
      assert ServesEach(c, items, [], [0]);
    } else {
      var init, last := items[..|items|-1], items[|items|-1];
      BodyServes(c, init);
      BlockServes(c, last);
      ServingIsUsing(c, last, Block(c, last));
      UsedAppend(Body(c, init), Block(c, last));
      var cuts :| ServesEach(c, init, Body(c, init), cuts);
      OneMorePart(c, items, Body(c, init), Block(c, last), cuts);
    }
  }

  lemma SliceOfFront(a: seq<Statement>, b: seq<Statement>, from: int, to: int)
    requires 0 <= from <= to <= |a|
    ensures (a + b)[from..to] == a[from..to]
  {
  }

  lemma OneMorePart(c: Context, items: seq<Provider>, body: seq<Statement>, block: seq<Statement>, cuts: seq<int>)
    requires items != [] && ServesEach(c, items[..|items|-1], body, cuts) && Serves(c, items[|items|-1], block)
    ensures ServesEach(c, items, body + block, cuts + [|body + block|])
  {
    hide Serves;
    var init, longer := items[..|items|-1], cuts + [|body + block|];
    assert |longer| == |items| + 1;
    forall k | 0 <= k < |items| ensures ServesPart(c, items[k], body + block, longer[k..k+2]) {
      if k < |init| {
        assert longer[k..k+2] == cuts[k..k+2] && ServesPart(c, init[k], body, cuts[k..k+2]);
        assert cuts[k..k+2][0] == cuts[k] && cuts[k..k+2][1] == cuts[k+1] && init[k] == items[k];
        SliceOfFront(body, block, cuts[k], cuts[k+1]);
      } else {
        assert longer[k..k+2][0] == |body| && longer[k..k+2][1] == |body + block|;
        assert (body + block)[|body|..|body + block|] == block;
      }
    }
    assert longer[0] == cuts[0] && longer[|items|] == |body + block|;
    assert ServesEach(c, items, body + block, longer);
  }

  lemma NothingUnused()
    ensures AllUsed([])
  {
  }

  lemma ServingIsUsing(c: Context, item: Provider, part: seq<Statement>)
    requires Serves(c, item, part)
    ensures AllUsed(part)
  {
  }

  // ----- Scopes ----------------------------------------------------------------------------------

  lemma DeclaredAppend(a: seq<Statement>, b: seq<Statement>)
    ensures Declared(a + b) == Declared(a) + Declared(b)
  {
    forall n ensures n in Declared(a + b) <==> n in Declared(a) + Declared(b) {
      if n in Declared(a + b) { var s :| s in a + b && n in Declares(s); assert s in a || s in b; }
      if n in Declared(a) { var s :| s in a && n in Declares(s); assert s in a + b; }
      if n in Declared(b) { var s :| s in b && n in Declares(s); assert s in a + b; }
    }
  }

  lemma ScopedAppend(a: seq<Statement>, b: seq<Statement>, params: set<string>)
    requires WellScoped(a, params) && WellScoped(b, params + Declared(a))
    ensures WellScoped(a + b, params)
  {
    var t := a + b;
    forall i | 0 <= i < |t| ensures Uses(t[i]) <= params + Declared(t[..i]) {
      if i < |a| {
        assert t[i] == a[i] && t[..i] == a[..i];
      } else {
        assert t[i] == b[i-|a|] && t[..i] == a + b[..i-|a|];
        DeclaredAppend(a, b[..i-|a|]);
      }
    }
  }

  lemma ScopedInMore(a: seq<Statement>, few: set<string>, many: set<string>)
    requires WellScoped(a, few) && few <= many
    ensures WellScoped(a, many)
  {
  }

  lemma OneScoped(s: Statement, params: set<string>)
    requires Uses(s) <= params
    ensures WellScoped([s], params) && Declared([s]) == Declares(s)
  {
    assert Declared([]) == {};
    assert forall x :: x in [s] <==> x == s;
  }

  lemma TwoScoped(a: Statement, b: Statement, params: set<string>)
    requires Uses(a) <= params && Uses(b) <= params + Declares(a)
    ensures WellScoped([a, b], params) && Declared([a, b]) == Declares(a) + Declares(b)
  {
    OneScoped(a, params);
    OneScoped(b, params + Declares(a));
    ScopedAppend([a], [b], params);
    DeclaredAppend([a], [b]);
    assert [a] + [b] == [a, b];
  }

  lemma ThreeScoped(a: Statement, b: Statement, c: Statement, params: set<string>)
    requires Uses(a) <= params && Uses(b) <= params + Declares(a) && Uses(c) <= params + Declares(a) + Declares(b)
    ensures WellScoped([a, b, c], params) && Declared([a, b, c]) == Declares(a) + Declares(b) + Declares(c)
  {
    TwoScoped(a, b, params);
    OneScoped(c, params + Declares(a) + Declares(b));
    ScopedInMore([c], params + Declares(a) + Declares(b), params + Declared([a, b]));
    ScopedAppend([a, b], [c], params);
    DeclaredAppend([a, b], [c]);
    assert [a, b] + [c] == [a, b, c];
  }

  // ----- One block -------------------------------------------------------------------------------

  function ManagerName(c: Context, id: string): set<string> {
    if id in c.services && c.services[id].managerID != "" then {LocalOf(c, c.services[id].managerID)} else {}
  }

  function ListenerNames(c: Context, id: string): set<string> {
    if id in c.meta.topics then set n | n in ReceiversOf(c, c.meta.topics[id]) else {}
  }

  /** Variables a block takes from other blocks. */
  function Needs(c: Context, item: Provider): set<string> {
    ArgNames(ArgsFor(c, item.symbolID)) + ManagerName(c, item.symbolID)
    + (if item.source == Event && item.scope == Singleton then ListenerNames(c, item.symbolID) else {})
  }

  /** Only singletons are decorated, and only decorated providers are exposed under another variable. */
  ghost predicate Exposes(c: Context, item: Provider) {
    if item.symbolID in c.services then item.scope == Singleton
    else ExposedOf(c, item.symbolID) == LocalOf(c, item.symbolID)
  }

  predicate Provides(c: Context, item: Provider, params: set<string>) {
    Parameters(false) <= params
    && (item.symbolID in c.services && item.symbolID in c.meta.authorized ==> "authorizer" in params)
  }

  lemma ScopedAdapterScoped(c: Context, item: Provider, params: set<string>)
    requires ArgNames(ArgsFor(c, item.symbolID)) <= params
    ensures WellScoped(ScopedAdapter(c, item), params) && LocalOf(c, item.symbolID) in Declared(ScopedAdapter(c, item))
  {
    hide ArgNames, WellScoped, Declared;
    var v := LocalOf(c, item.symbolID);
    var factory := Factory(v + "Factory", ArgsFor(c, item.symbolID));
    if item.scope == Prototype {
      ThreeScoped(factory, NewProvider(v, v + "Factory"), Keep(v), params);
      assert ScopedAdapter(c, item) == [factory, NewProvider(v, v + "Factory"), Keep(v)];
    } else {
      var scope := NewScope(v + "Scope", v + "Factory", item.scope == Session);
      ThreeScoped(factory, scope, ProviderOfScope(v, v + "Scope"), params);
      OneScoped(Keep(v), params + Declared([factory, scope, ProviderOfScope(v, v + "Scope")]));
      ScopedAppend([factory, scope, ProviderOfScope(v, v + "Scope")], [Keep(v)], params);
      DeclaredAppend([factory, scope, ProviderOfScope(v, v + "Scope")], [Keep(v)]);
      assert ScopedAdapter(c, item) == [factory, scope, ProviderOfScope(v, v + "Scope")] + [Keep(v)];
    }
  }

  lemma OwnStatementsScoped(c: Context, item: Provider, params: set<string>)
    requires item.scope == Singleton && item.symbolID !in c.services && Needs(c, item) <= params
    requires Provides(c, item, params)
    ensures WellScoped(Block(c, item), params) && LocalOf(c, item.symbolID) in Declared(Block(c, item))
  {
    hide ArgNames, WellScoped, Declared, ReceiversOf, AdapterCall, EventProvider;
    var id, v := item.symbolID, LocalOf(c, item.symbolID);
    assert PolicyConstruction(c, item) == [];
    assert forall s: seq<Statement> :: s + [] == s;
    match item.source {
      case Configuration =>
        TwoScoped(Bind(v), Keep(v), params);
        assert Block(c, item) == [Bind(v), Keep(v)];
      case Event =>
        var listeners := if id in c.meta.topics then c.meta.topics[id] else [];
        if id !in c.meta.topics { assert ReceiversOf(c, []) == []; }
        EventProviderScoped(c, item, listeners, params);
      case Logging =>
        TwoScoped(UseLogger(v), Keep(v), params);
        assert Block(c, item) == [UseLogger(v), Keep(v)];
      case _ => AdapterCallScoped(c, item, params);
    }
  }

  lemma AdapterCallScoped(c: Context, item: Provider, params: set<string>)
    requires ArgNames(ArgsFor(c, item.symbolID)) <= params && Parameters(false) <= params
    ensures WellScoped(AdapterCall(c, item), params) && LocalOf(c, item.symbolID) in Declared(AdapterCall(c, item))
  {
    hide ArgNames, WellScoped, Declared;
    var v := LocalOf(c, item.symbolID);
    var construct := Construct(v, v + "Cleanup", ArgsFor(c, item.symbolID), item.symbolID in c.meta.overridable);
    ThreeScoped(construct, RegisterCleanup(v + "Cleanup"), Keep(v), params);
  }

  lemma EventProviderScoped(c: Context, item: Provider, listeners: seq<string>, params: set<string>)
    requires (set n | n in ReceiversOf(c, listeners)) <= params && Parameters(false) <= params
    ensures WellScoped(EventProvider(c, item, listeners), params)
    ensures LocalOf(c, item.symbolID) in Declared(EventProvider(c, item, listeners))
  {
    hide WellScoped, Declared, ReceiversOf;
    var v := LocalOf(c, item.symbolID);
    ThreeScoped(NewTopic(v + "Topic", ReceiversOf(c, listeners)), Publish(v, v + "Topic"), Keep(v), params);
  }

  /** A block needs only what it takes from others, and declares both variables of its provider. */
  lemma BlockScoped(c: Context, item: Provider, params: set<string>)
    requires Needs(c, item) <= params && Provides(c, item, params) && Exposes(c, item)
    ensures WellScoped(Block(c, item), params)
    ensures {LocalOf(c, item.symbolID), ExposedOf(c, item.symbolID)} <= Declared(Block(c, item))
  {
    hide ArgNames, WellScoped, Declared, ReceiversOf, ScopedAdapter, AdapterCall, EventProvider;
    var id := item.symbolID;
    if item.scope != Singleton {
      ScopedAdapterScoped(c, item, params);
    } else {
      var plain := c.(services := map[]);
      var own := Block(plain, item);
      SameOwnStatements(c, item, params);
      OwnStatementsScoped(plain, item, params);
      if id in c.services {
        DecorationScoped(c, item, params + Declared(own));
        ScopedAppend(own, PolicyConstruction(c, item), params);
        DeclaredAppend(own, PolicyConstruction(c, item));
      } else {
        assert own + [] == own;
      }
    }
  }

  lemma SameOwnStatements(c: Context, item: Provider, params: set<string>)
    requires item.scope == Singleton && Provides(c, item, params)
    ensures Block(c, item) == Block(c.(services := map[]), item) + PolicyConstruction(c, item)
    ensures Needs(c.(services := map[]), item) <= Needs(c, item)
    ensures Provides(c.(services := map[]), item, params)
  {
    hide ArgNames, ReceiversOf;
    var plain := c.(services := map[]);
    assert PolicyConstruction(plain, item) == [];
    assert forall s: seq<Statement> :: s + [] == s;
    SameReceivers(c, if item.symbolID in c.meta.topics then c.meta.topics[item.symbolID] else []);
  }

  lemma SameReceivers(c: Context, listeners: seq<string>)
    ensures ReceiversOf(c, listeners) == ReceiversOf(c.(services := map[]), listeners)
  {
  }

  lemma DecorationScoped(c: Context, item: Provider, params: set<string>)
    requires item.symbolID in c.services && ManagerName(c, item.symbolID) <= params && Provides(c, item, params)
    requires LocalOf(c, item.symbolID) in params
    ensures WellScoped(PolicyConstruction(c, item), params)
    ensures ExposedOf(c, item.symbolID) in Declared(PolicyConstruction(c, item))
  {
    hide WellScoped, Declared;
    var service := c.services[item.symbolID];
    var exposed := ExposedOf(c, item.symbolID);
    var decorate := Decorate(exposed, LocalOf(c, item.symbolID),
                             if service.managerID != "" then Some(LocalOf(c, service.managerID)) else None,
                             item.symbolID in c.meta.authorized);
    TwoScoped(decorate, Keep(exposed), params);
  }

  // ----- The whole body --------------------------------------------------------------------------

  function VariablesFor(c: Context, id: string): set<string> { {LocalOf(c, id), ExposedOf(c, id)} }

  /** The variables under which providers can be used. */
  function Visible(c: Context, items: seq<Provider>): set<string> {
    set p, n | p in items && n in VariablesFor(c, p.symbolID) :: n
  }

  /** Every block takes its variables from blocks before it. */
  ghost predicate InOrder(c: Context, items: seq<Provider>) {
    forall i :: 0 <= i < |items| ==> Needs(c, items[i]) <= Visible(c, items[..i])
  }

  ghost predicate AllProvided(c: Context, items: seq<Provider>, params: set<string>) {
    forall i :: 0 <= i < |items| ==> Provides(c, items[i], params) && Exposes(c, items[i])
  }

  lemma {:induction false} BodyScoped(c: Context, items: seq<Provider>, params: set<string>)
    requires InOrder(c, items) && AllProvided(c, items, params)
    ensures WellScoped(Body(c, items), params) && Visible(c, items) <= Declared(Body(c, items))
  {
    hide WellScoped, Declared, Block, Needs, Provides, Exposes;
    if items == [] {
      NothingScoped(params);
      assert Visible(c, items) == {};
    } else {
      var init, last := items[..|items|-1], items[|items|-1];
      assert forall i :: 0 <= i < |init| ==> init[..i] == items[..i];
      BodyScoped(c, init, params);
      var body, block := Body(c, init), Block(c, last);
      ProvidesMore(c, last, params, params + Declared(body));
      BlockScoped(c, last, params + Declared(body));
      ScopedAppend(body, block, params);
      DeclaredAppend(body, block);
      forall n | n in Visible(c, items) ensures n in Declared(body) + Declared(block) {
        var p :| p in items && n in VariablesFor(c, p.symbolID);
        assert p in init || p == last;
      }
    }
  }

  lemma NothingScoped(params: set<string>)
    ensures WellScoped([], params)
  {
  }

  lemma ProvidesMore(c: Context, item: Provider, few: set<string>, many: set<string>)
    requires Provides(c, item, few) && few <= many
    ensures Provides(c, item, many)
  {
  }
}
