/**
 * Generated method decorators: the emitted closures and what running them does
 * (compiler/generate/policy_render.go).
 */
module Decorator {
  import opened Catalog

  type Value = string

  /** The policies on one method; `retry` holds the number of attempts allowed. */
  datatype Policies = Policies(
    observation: bool, authorization: bool, cache: bool, retry: Option<nat>, transaction: bool)

  // ----- The emitted body ------------------------------------------------------------------------

  /** The function literals the emitter writes; `next` is the variable the literal calls. */
  datatype Closure =
    | CallTarget
    | InTransaction(next: string)
    | WithRetry(max: nat, next: string)
    | ThroughCache(next: string)
    | AfterAuthorization(next: string)
    | UnderObservation(next: string)

  datatype Statement = Assign(variable: string, body: Closure) | Copy(to: string, from: string)

  function Step(env: map<string, Closure>, s: Statement): map<string, Closure> {
    if s.Assign? then env[s.variable := s.body]
    else if s.from in env then env[s.to := env[s.from]]
    else env
  }

  /** The variables after the statements have run. Literals see the variables as they are when called. */
  function Execute(program: seq<Statement>): map<string, Closure> {
    if program == [] then map[] else Step(Execute(program[..|program|-1]), program[|program|-1])
  }

  lemma ExecuteNext(program: seq<Statement>, s: Statement)
    ensures Execute(program + [s]) == Step(Execute(program), s)
  {
    assert (program + [s])[..|program|] == program;
  }

  // ----- What the pieces the generated code calls may do -----------------------------------------

  datatype Cause = Denied | CacheRead | CacheWrite | TargetError | NotBegun | NotCommitted | Cancelled

  datatype Outcome = Success | Error(cause: Cause) | Panic | Stuck

  datatype Answer = Hit(value: Value) | Miss | Unreadable

  /** The cached arguments: all but the context. */
  datatype Key = NoArguments | OneArgument(p1: Value) | Arguments(fields: seq<Value>)

  datatype Event =
    | ObserveBegin
    | ObserveEnd(outcome: Outcome)
    | Authorize(allowed: bool)
    | CacheGet(key: Key, answer: Answer)
    | CachePut(key: Key, value: Value, ok: bool)
    | Attempt(n: nat)
    | Abandoned(n: nat)
    | AttemptEnd(n: nat, outcome: Outcome)
    | ObserverBegin(i: nat, finishes: bool)
    | ObserverFinish(i: nat, outcome: Outcome)
    | TransactionBegin(ok: bool)
    | TransactionEnd(committed: bool)
    | Target(args: seq<Value>, value: Value, outcome: Outcome)

  /** Every choice the runtime may make, by the moment it is asked. */
  datatype Choices = Choices(
    allowed: nat -> bool, unreadable: nat -> bool, expired: nat -> bool, unwritable: nat -> bool,
    evicted: nat -> set<Key>, cancelled: nat -> bool, again: nat -> bool, begun: nat -> bool, commits: nat -> bool,
    finishes: nat -> bool, target: nat -> (Value, Outcome), observers: nat)

  datatype World = World(cache: map<Key, Value>, result: Value, trace: seq<Event>)
  {
    /** The moment of whatever is asked next: the place of the event that will record the answer. */
    function Clock(): nat { |trace| }

    function Log(e: Event): World { this.(trace := trace + [e]) }
  }

  function CacheKey(args: seq<Value>): Key {
    if |args| <= 1 then NoArguments else if |args| == 2 then OneArgument(args[1]) else Arguments(args[1..])
  }

  /** Calls of one method share a cache entry exactly when all arguments but the context are equal. */
  lemma KeysAgree(a: seq<Value>, b: seq<Value>)
    requires |a| == |b| > 0
    ensures CacheKey(a) == CacheKey(b) <==> a[1..] == b[1..]
  {
    if |a| == 2 && a[1] == b[1] { assert a[1..] == [a[1]] && b[1..] == [b[1]]; }
    if |a| == 2 && a[1..] == b[1..] { assert a[1] == a[1..][0]; }
  }

  /** An outcome a called function may have of itself. */
  function Answered(o: Outcome): Outcome { if o.Success? || o.Panic? then o else Error(TargetError) }

  function CallsTarget(c: Choices, args: seq<Value>, w: World): (World, Outcome) {
    var (value, said) := c.target(w.Clock());
    var outcome := Answered(said);
    ((if outcome.Panic? then w else w.(result := value)).Log(Target(args, value, outcome)), outcome)
  }

  /** Begins the transaction observers in order. */
  function BeginObservers(c: Choices, w: World, from: nat): World
    decreases c.observers - from
  {
    if from >= c.observers then w else BeginObservers(c, w.Log(ObserverBegin(from, c.finishes(w.Clock()))), from + 1)
  }

  /** The finishers of those that gave one, last first. */
  function FinishesOf(begins: seq<Event>, outcome: Outcome): seq<Event> {
    if begins == [] then []
    else
      var last := begins[|begins|-1];
      (if last.ObserverBegin? && last.finishes then [ObserverFinish(last.i, outcome)]
       else []) + FinishesOf(begins[..|begins|-1], outcome)
  }

  /** What happens when the variable is called; `fuel` bounds the depth of calls. */
  function Invoke(fuel: nat, env: map<string, Closure>, name: string, c: Choices, args: seq<Value>, w: World): (World,
                  Outcome)
    decreases fuel, 1, 0
  {
    if fuel == 0 || name !in env then (w, Stuck)
    else
      match env[name]
      case CallTarget => CallsTarget(c, args, w)
      case InTransaction(next) => Transacts(fuel, env, next, c, args, w)
      case WithRetry(max, next) => Retries(fuel, env, next, c, args, w, 1, max)
      case ThroughCache(next) => LooksUp(fuel, env, next, c, args, w)
      case AfterAuthorization(next) =>
        var ok := c.allowed(w.Clock());
        if ok then Invoke(fuel - 1, env, next, c, args, w.Log(Authorize(true)))
        else (w.Log(Authorize(false)), Error(Denied))
      case UnderObservation(next) =>
        var (w', outcome) := Invoke(fuel - 1, env, next, c, args, w.Log(ObserveBegin));
        (w'.Log(ObserveEnd(outcome)), outcome)
  }

  /** The observers begin, the manager runs the rest in one transaction, the observers finish. */
  function Transacts(fuel: nat, env: map<string, Closure>, next: string, c: Choices, args: seq<Value>,
                     w: World): (World, Outcome)
    requires fuel > 0
    decreases fuel, 0, 0
  {
    var w1 := BeginObservers(c, w, 0);
    var begins := if |w.trace| <= |w1.trace| then w1.trace[|w.trace|..] else [];
    var (w2, outcome) :=
      if !c.begun(w1.Clock()) then (w1.Log(TransactionBegin(false)), Error(NotBegun))
      else
        var (w', inner) := Invoke(fuel - 1, env, next, c, args, w1.Log(TransactionBegin(true)));
        var committed := inner.Success? && c.commits(w'.Clock());
        (w'.Log(TransactionEnd(committed)), if inner.Success? && !committed then Error(NotCommitted) else inner);
    (w2.(trace := w2.trace + FinishesOf(begins, outcome)), outcome)
  }

  /** Tries again while an attempt fails, attempts are left and the policy says so. */
  function Retries(fuel: nat, env: map<string, Closure>, next: string, c: Choices, args: seq<Value>, w: World, n: nat,
                   max: nat): (World, Outcome)
    requires fuel > 0
    decreases fuel, 0, max - n
  {
    if c.cancelled(w.Clock()) then (w.Log(Abandoned(n)), Error(Cancelled))
    else
      var (w', outcome) := Invoke(fuel - 1, env, next, c, args, w.Log(Attempt(n)));
      var ended := w'.Log(AttemptEnd(n, outcome));
      if outcome.Error? && n < max && c.again(ended.Clock()) then Retries(fuel, env, next, c, args, ended, n + 1, max)
      else (ended, outcome)
  }

  /** A hit answers by itself; after a miss a successful result is stored. */
  function LooksUp(fuel: nat, env: map<string, Closure>, next: string, c: Choices, args: seq<Value>, w: World): (World,
                   Outcome)
    requires fuel > 0
    decreases fuel, 0, 0
  {
    var key := CacheKey(args);
    if c.unreadable(w.Clock()) then (w.Log(CacheGet(key, Unreadable)), Error(CacheRead))
    else if key in w.cache && !c.expired(w.Clock()) then
      (w.Log(CacheGet(key, Hit(w.cache[key]))).(result := w.cache[key]), Success)
    else
      var (w', outcome) := Invoke(fuel - 1, env, next, c, args, w.Log(CacheGet(key, Miss)));
      if !outcome.Success? then (w', outcome)
      else if c.unwritable(w'.Clock()) then (w'.Log(CachePut(key, w'.result, false)), Error(CacheWrite))
      else (w'.Log(CachePut(key, w'.result, true)).(cache := (w'.cache - c.evicted(w'.Clock()))[key := w'.result]),
            Success)
  }

  // ----- What a run must look like ---------------------------------------------------------------

  /** Exactly one call of the target. */
  ghost predicate TargetRun(t: seq<Event>, r: Outcome, args: seq<Value>) {
    |t| == 1 && t[0].Target? && t[0].args == args && t[0].outcome == r && r == Answered(r)
  }

  /** All observers begin, one transaction holds the call, and the observers finish in reverse. */
  ghost predicate TransactionRun(m: Policies, observers: nat, t: seq<Event>, r: Outcome, args: seq<Value>) {
    if !m.transaction then TargetRun(t, r, args)
    else
      && |t| > observers && (forall i :: 0 <= i < observers ==> t[i].ObserverBegin? && t[i].i == i)
      && t[observers].TransactionBegin?
      && if !t[observers].ok then r == Error(NotBegun) && t[observers+1..] == FinishesOf(t[..observers], r)
         else
           && |t| > observers + 2 && t[observers+1].Target? && t[observers+2].TransactionEnd?
           && TargetRun(t[observers+1..observers+2], t[observers+1].outcome, args)
           && (t[observers+2].committed ==> t[observers+1].outcome.Success?)
           && r == (if t[observers+1].outcome.Success? && !t[observers+2].committed then Error(NotCommitted)
                    else t[observers+1].outcome)
           && t[observers+3..] == FinishesOf(t[..observers], r)
  }

  function FirstEnd(t: seq<Event>): nat {
    if t == [] || t[0].AttemptEnd? then 0 else 1 + FirstEnd(t[1..])
  }

  /** Numbered attempts, each a transaction of its own; only a failed one is followed by another. */
  ghost predicate AttemptsRun(m: Policies, observers: nat, t: seq<Event>, r: Outcome, args: seq<Value>, n: nat,
                              max: nat)
    decreases |t|
  {
    if t == [Abandoned(n)] then r == Error(Cancelled)
    else
      var e := FirstEnd(t);
      && t != [] && t[0] == Attempt(n) && 0 < e < |t| && t[e].AttemptEnd? && t[e].n == n
      && TransactionRun(m, observers, t[1..e], t[e].outcome, args)
      && if e == |t| - 1 then r == t[e].outcome
         else t[e].outcome.Error? && n < max && AttemptsRun(m, observers, t[e+1..], r, args, n + 1, max)
  }

  ghost predicate RetryRun(m: Policies, observers: nat, t: seq<Event>, r: Outcome, args: seq<Value>) {
    if m.retry.Some? then AttemptsRun(m, observers, t, r, args, 1, m.retry.value)
    else TransactionRun(m, observers, t, r, args)
  }

  /** A look-up first; a hit or a read failure ends the run; a store comes only after a miss and success, and last. */
  ghost predicate CacheRun(m: Policies, observers: nat, t: seq<Event>, r: Outcome, args: seq<Value>) {
    if !m.cache then RetryRun(m, observers, t, r, args)
    else
      && |t| > 0 && t[0].CacheGet? && t[0].key == CacheKey(args)
      && match t[0].answer
         case Unreadable => |t| == 1 && r == Error(CacheRead)
         case Hit(value) => |t| == 1 && r == Success
         case Miss =>
           if t[|t|-1].CachePut? then
             && |t| > 1 && RetryRun(m, observers, t[1..|t|-1], Success, args)
             && t[|t|-1].key == CacheKey(args) && LastReturned(t, t[|t|-1].value)
             && r == (if t[|t|-1].ok then Success else Error(CacheWrite))
           else !r.Success? && RetryRun(m, observers, t[1..], r, args)
  }

  /** Permission first; without it nothing follows. */
  ghost predicate AuthorizationRun(m: Policies, observers: nat, t: seq<Event>, r: Outcome, args: seq<Value>) {
    if !m.authorization then CacheRun(m, observers, t, r, args)
    else
      && |t| > 0 && t[0].Authorize?
      && if t[0].allowed then CacheRun(m, observers, t[1..], r, args) else |t| == 1 && r == Error(Denied)
  }

  /** Observation begins before everything and ends after everything. */
  ghost predicate ObservedRun(m: Policies, observers: nat, t: seq<Event>, r: Outcome, args: seq<Value>) {
    if !m.observation then AuthorizationRun(m, observers, t, r, args)
    else |t| > 1 && t[0] == ObserveBegin && t[|t|-1] == ObserveEnd(r)
         && AuthorizationRun(m, observers, t[1..|t|-1], r, args)
  }

  /** The last call of the target succeeded with this value. */
  ghost predicate LastReturned(t: seq<Event>, value: Value) {
    exists i :: 0 <= i < |t| && t[i].Target? && t[i].outcome.Success? && t[i].value == value
                && forall j :: i < j < |t| ==> !t[j].Target?
  }

  // ----- How the variables are wired -------------------------------------------------------------

  const TARGET := 0
  const TRANSACTION := 1
  const RETRY := 2
  const CACHE := 3
  const AUTHORIZATION := 4
  const OBSERVATION := 5

  /** What a variable holds that stands for all layers up to the given one. */
  function Top(m: Policies, layer: nat): Closure {
    if layer == TARGET then CallTarget
    else if layer == TRANSACTION && m.transaction then InTransaction("transactionNext")
    else if layer == RETRY && m.retry.Some? then WithRetry(m.retry.value, "retryNext")
    else if layer == CACHE && m.cache then ThroughCache("cacheNext")
    else if layer == AUTHORIZATION && m.authorization then AfterAuthorization("authorizationNext")
    else if layer == OBSERVATION && m.observation then UnderObservation("observationNext")
    else Top(m, layer - 1)
  }

  predicate Stands(m: Policies, env: map<string, Closure>, name: string, layer: nat) {
    name in env && env[name] == Top(m, layer)
  }

  /** Each literal's variable stands for exactly the layers below it. */
  predicate Wired(m: Policies, env: map<string, Closure>, layer: nat) {
    && Stands(m, env, "invoke", layer)
    && (layer >= TRANSACTION && m.transaction ==> Stands(m, env, "transactionNext", TARGET))
    && (layer >= RETRY && m.retry.Some? ==> Stands(m, env, "retryNext", TRANSACTION))
    && (layer >= CACHE && m.cache ==> Stands(m, env, "cacheNext", RETRY))
    && (layer >= AUTHORIZATION && m.authorization ==> Stands(m, env, "authorizationNext", CACHE))
    && (layer >= OBSERVATION && m.observation ==> Stands(m, env, "observationNext", AUTHORIZATION))
  }

  function Wrapped(env: map<string, Closure>, next: string, literal: Closure): map<string, Closure> {
    Step(Step(env, Copy(next, "invoke")), Assign("invoke", literal))
  }

  /** Emits one layer: the next variable takes over what `invoke` held. */
  method WriteLayer(source: seq<Statement>, next: string, literal: Closure) returns (longer: seq<Statement>)
    ensures Execute(longer) == Wrapped(Execute(source), next, literal)
  {
    var copied := source + [Copy(next, "invoke")];
    ExecuteNext(source, Copy(next, "invoke"));
    longer := copied + [Assign("invoke", literal)];
    ExecuteNext(copied, Assign("invoke", literal));
  }

  lemma InnerLayersWired(m: Policies, env: map<string, Closure>)
    ensures Wired(m, env, TARGET) && m.transaction ==>
              Wired(m, Wrapped(env, "transactionNext", InTransaction("transactionNext")), TRANSACTION)
    ensures Wired(m, env, TARGET) && !m.transaction ==> Wired(m, env, TRANSACTION)
    ensures Wired(m, env, TRANSACTION) && m.retry.Some? ==>
              Wired(m, Wrapped(env, "retryNext", WithRetry(m.retry.value, "retryNext")), RETRY)
    ensures Wired(m, env, TRANSACTION) && m.retry.None? ==> Wired(m, env, RETRY)
  {
  }

  lemma OuterLayersWired(m: Policies, env: map<string, Closure>)
    ensures Wired(m, env, RETRY) && m.cache ==> Wired(m, Wrapped(env, "cacheNext", ThroughCache("cacheNext")), CACHE)
    ensures Wired(m, env, RETRY) && !m.cache ==> Wired(m, env, CACHE)
    ensures Wired(m, env, CACHE) && m.authorization ==>
              Wired(m, Wrapped(env, "authorizationNext", AfterAuthorization("authorizationNext")), AUTHORIZATION)
    ensures Wired(m, env, CACHE) && !m.authorization ==> Wired(m, env, AUTHORIZATION)
    ensures Wired(m, env, AUTHORIZATION) && m.observation ==>
              Wired(m, Wrapped(env, "observationNext", UnderObservation("observationNext")), OBSERVATION)
    ensures Wired(m, env, AUTHORIZATION) && !m.observation ==> Wired(m, env, OBSERVATION)
  {
  }

  /** Emits the body of a decorated method, innermost layer first. */
  method WriteDecoratedMethodBody(m: Policies) returns (source: seq<Statement>)
    ensures Wired(m, Execute(source), OBSERVATION)
  {
    hide Wired, Wrapped;
    source := [Assign("invoke", CallTarget)];
    TargetWired(m);
    InnerLayersWired(m, Execute(source));
    if m.transaction { source := WriteLayer(source, "transactionNext", InTransaction("transactionNext")); }
    InnerLayersWired(m, Execute(source));
    if m.retry.Some? { source := WriteLayer(source, "retryNext", WithRetry(m.retry.value, "retryNext")); }
    OuterLayersWired(m, Execute(source));
    if m.cache { source := WriteLayer(source, "cacheNext", ThroughCache("cacheNext")); }
    OuterLayersWired(m, Execute(source));
    if m.authorization { source := WriteLayer(source, "authorizationNext", AfterAuthorization("authorizationNext")); }
    OuterLayersWired(m, Execute(source));
    if m.observation { source := WriteLayer(source, "observationNext", UnderObservation("observationNext")); }
  }

  lemma TargetWired(m: Policies)
    ensures Wired(m, Execute([Assign("invoke", CallTarget)]), TARGET)
  {
    ExecuteNext([], Assign("invoke", CallTarget));
    assert [] + [Assign("invoke", CallTarget)] == [Assign("invoke", CallTarget)];
  }

  // ----- Layer by layer --------------------------------------------------------------------------

  ghost predicate Extends(w: World, w': World) { |w.trace| <= |w'.trace| && w'.trace[..|w.trace|] == w.trace }

  ghost function New(w: World, w': World): seq<Event>
    requires Extends(w, w')
  {
    w'.trace[|w.trace|..]
  }

  /** A successful inner run leaves the cache alone and its result is what the target returned last. */
  ghost predicate Settled(w: World, w': World, r: Outcome) {
    && Extends(w, w') && w'.cache == w.cache && (r.Success? ==> LastReturned(New(w, w'), w'.result))
  }

  lemma NewChains(a: World, b: World, c: World)
    requires Extends(a, b) && Extends(b, c)
    ensures Extends(a, c) && New(a, c) == New(a, b) + New(b, c)
  {
    assert c.trace[..|a.trace|] == c.trace[..|b.trace|][..|a.trace|];
    assert c.trace[|a.trace|..] == c.trace[..|b.trace|][|a.trace|..] + c.trace[|b.trace|..];
  }

  lemma Logged(w: World, e: Event)
    ensures Extends(w, w.Log(e)) && New(w, w.Log(e)) == [e] && w.Log(e).cache == w.cache && w.Log(e).result == w.result
  {
  }

  lemma ReturnedLater(before: seq<Event>, t: seq<Event>, value: Value)
    requires LastReturned(t, value)
    ensures LastReturned(before + t, value)
  {
    var i :| 0 <= i < |t| && t[i].Target? && t[i].outcome.Success? && t[i].value == value
             && forall j :: i < j < |t| ==> !t[j].Target?;
    var s, k := before + t, |before| + i;
    assert s[k] == t[i];
    forall j | k < j < |s| ensures !s[j].Target? { assert s[j] == t[j - |before|]; }
  }

  lemma ReturnedEarlier(t: seq<Event>, after: seq<Event>, value: Value)
    requires LastReturned(t, value) && forall j :: 0 <= j < |after| ==> !after[j].Target?
    ensures LastReturned(t + after, value)
  {
    var i :| 0 <= i < |t| && t[i].Target? && t[i].outcome.Success? && t[i].value == value
             && forall j :: i < j < |t| ==> !t[j].Target?;
    var s := t + after;
    assert s[i] == t[i];
    forall j | i < j < |s|
      ensures !s[j].Target?
    {
      if j < |t| { assert s[j] == t[j]; } else { assert s[j] == after[j - |t|]; }
    }
  }

  lemma TargetLayer(m: Policies, env: map<string, Closure>, name: string, c: Choices, args: seq<Value>, w: World,
                    fuel: nat)
    requires Stands(m, env, name, TARGET) && fuel > 0
    ensures var (w', r) := Invoke(fuel, env, name, c, args, w); Settled(w, w', r) && TargetRun(New(w, w'), r, args)
  {
    var (w', r) := Invoke(fuel, env, name, c, args, w);
    var t := New(w, w');
    assert t[0].Target?;
  }

  lemma {:induction false} ObserversBegin(c: Choices, w: World, from: nat)
    requires from <= c.observers
    ensures var w' := BeginObservers(c, w, from);
            && Extends(w, w') && w'.cache == w.cache && |New(w, w')| == c.observers - from
            && forall i :: 0 <= i < c.observers - from ==> New(w, w')[i].ObserverBegin? && New(w, w')[i].i == from + i
    decreases c.observers - from
  {
    if from < c.observers {
      var next := w.Log(ObserverBegin(from, c.finishes(w.Clock())));
      Logged(w, ObserverBegin(from, c.finishes(w.Clock())));
      ObserversBegin(c, next, from + 1);
      NewChains(w, next, BeginObservers(c, next, from + 1));
    }
  }

  lemma {:induction false} OnlyFinishes(begins: seq<Event>, outcome: Outcome)
    ensures forall e :: e in FinishesOf(begins, outcome) ==> e.ObserverFinish?
  {
    if begins != [] { OnlyFinishes(begins[..|begins|-1], outcome); }
  }

  lemma TransactionLayer(m: Policies, env: map<string, Closure>, name: string, c: Choices, args: seq<Value>, w: World,
                         fuel: nat)
    requires Wired(m, env, OBSERVATION) && Stands(m, env, name, TRANSACTION) && fuel > 1
    ensures var (w', r) := Invoke(fuel, env, name, c, args, w);
            Settled(w, w', r) && TransactionRun(m, c.observers, New(w, w'), r, args)
  {
    if !m.transaction {
      TargetLayer(m, env, name, c, args, w, fuel);
    } else {
      TransactionRuns(m, env, c, args, w, fuel);
    }
  }

  predicate AreBegins(begins: seq<Event>) {
    forall i :: 0 <= i < |begins| ==> begins[i].ObserverBegin? && begins[i].i == i
  }

  lemma NotBegunShape(m: Policies, begins: seq<Event>, args: seq<Value>)
    requires m.transaction && AreBegins(begins)
    ensures TransactionRun(m, |begins|, begins + [TransactionBegin(false)] + FinishesOf(begins, Error(NotBegun)),
                           Error(NotBegun), args)
  {
    hide FinishesOf;
    var finishes := FinishesOf(begins, Error(NotBegun));
    var t := begins + [TransactionBegin(false)] + finishes;
    assert t[..|begins|] == begins && t[|begins|+1..] == finishes;
  }

  lemma Pieces(a: seq<Event>, x: Event, b: Event, y: Event, c: seq<Event>)
    ensures var t := a + [x] + [b] + [y] + c;
            && |t| == |a| + 3 + |c| && t[..|a|] == a && t[|a|] == x && t[|a|+1] == b && t[|a|+1..|a|+2] == [b]
            && t[|a|+2] == y
            && t[|a|+3..] == c
  {
  }

  lemma BegunShape(m: Policies, begins: seq<Event>, call: seq<Event>, inner: Outcome, committed: bool, r: Outcome,
                   args: seq<Value>)
    requires m.transaction && AreBegins(begins) && TargetRun(call, inner, args) && (committed ==> inner.Success?)
    requires r == if inner.Success? && !committed then Error(NotCommitted) else inner
    ensures TransactionRun(m, |begins|,
                           begins + [TransactionBegin(true)] + call + [TransactionEnd(committed)]
                           + FinishesOf(begins, r), r, args)
  {
    hide FinishesOf;
    Pieces(begins, TransactionBegin(true), call[0], TransactionEnd(committed), FinishesOf(begins, r));
    assert call == [call[0]];
    var t := begins + [TransactionBegin(true)] + call + [TransactionEnd(committed)] + FinishesOf(begins, r);
    assert forall i :: 0 <= i < |begins| ==> t[i] == t[..|begins|][i];
  }

  lemma BegunReturns(begins: seq<Event>, call: seq<Event>, committed: bool, r: Outcome, result: Value)
    requires LastReturned(call, result)
    ensures LastReturned(begins + [TransactionBegin(true)] + call + [TransactionEnd(committed)]
                         + FinishesOf(begins, r), result)
  {
    hide FinishesOf, LastReturned;
    var head, tail := begins + [TransactionBegin(true)], [TransactionEnd(committed)] + FinishesOf(begins, r);
    OnlyFinishes(begins, r);
    forall j | 0 <= j < |tail| ensures !tail[j].Target? { if j > 0 { assert tail[j] in FinishesOf(begins, r); } }
    ReturnedLater(head, call, result);
    ReturnedEarlier(head + call, tail, result);
    assert head + call + tail == head + call + [TransactionEnd(committed)] + FinishesOf(begins, r);
  }

  lemma TransactionRuns(m: Policies, env: map<string, Closure>, c: Choices, args: seq<Value>, w: World, fuel: nat)
    requires m.transaction && Stands(m, env, "transactionNext", TARGET) && fuel > 1
    ensures var (w', r) := Transacts(fuel, env, "transactionNext", c, args, w);
            Settled(w, w', r) && TransactionRun(m, c.observers, New(w, w'), r, args)
  {
    hide Invoke, LastReturned, FinishesOf, BeginObservers, TransactionRun, TargetRun, Stands;
    var (w', r) := Transacts(fuel, env, "transactionNext", c, args, w);
    var w1 := BeginObservers(c, w, 0);
    ObserversBegin(c, w, 0);
    var begins := New(w, w1);
    var ok := c.begun(w1.Clock());
    var w2 := w1.Log(TransactionBegin(ok));
    Logged(w1, TransactionBegin(ok));
    NewChains(w, w1, w2);
    if !ok {
      NotBegunShape(m, begins, args);
      Finished(w, w2, w', FinishesOf(begins, r));
    } else {
      var (w3, inner) := Invoke(fuel - 1, env, "transactionNext", c, args, w2);
      TargetLayer(m, env, "transactionNext", c, args, w2, fuel - 1);
      NewChains(w, w2, w3);
      var committed := inner.Success? && c.commits(w3.Clock());
      var w4 := w3.Log(TransactionEnd(committed));
      Logged(w3, TransactionEnd(committed));
      NewChains(w, w3, w4);
      BegunShape(m, begins, New(w2, w3), inner, committed, r, args);
      if r.Success? { BegunReturns(begins, New(w2, w3), committed, r, w3.result); }
      Finished(w, w4, w', FinishesOf(begins, r));
    }
  }

  lemma Finished(w: World, before: World, w': World, finishes: seq<Event>)
    requires Extends(w, before) && w'.trace == before.trace + finishes
    ensures Extends(w, w') && New(w, w') == New(w, before) + finishes
  {
    assert w'.trace[..|w.trace|] == before.trace[..|w.trace|];
  }

  lemma TransactionHasNoEnd(m: Policies, observers: nat, t: seq<Event>, r: Outcome, args: seq<Value>)
    requires TransactionRun(m, observers, t, r, args)
    ensures forall i :: 0 <= i < |t| ==> !t[i].AttemptEnd?
  {
    if m.transaction {
      var finishes := FinishesOf(t[..observers], r);
      OnlyFinishes(t[..observers], r);
      var from := if t[observers].ok then observers + 3 else observers + 1;
      forall i | from <= i < |t| ensures !t[i].AttemptEnd? { assert t[i] == t[from..][i - from] && t[i] in finishes; }
      assert t[observers].ok ==> t[observers+1].Target? && t[observers+2].TransactionEnd?;
    }
  }

  lemma {:induction false} FirstEndAt(before: seq<Event>, e: Event, after: seq<Event>)
    requires e.AttemptEnd? && forall i :: 0 <= i < |before| ==> !before[i].AttemptEnd?
    ensures FirstEnd(before + [e] + after) == |before|
  {
    var t := before + [e] + after;
    if before == [] {
      assert t[0] == e;
    } else {
      FirstEndAt(before[1..], e, after);
      assert t[0] == before[0] && t[1..] == before[1..] + [e] + after;
    }
  }

  lemma {:induction false} AttemptsLayer(m: Policies, env: map<string, Closure>, c: Choices, args: seq<Value>,
                                         w: World, fuel: nat, n: nat, max: nat)
    requires Wired(m, env, OBSERVATION) && Stands(m, env, "retryNext", TRANSACTION) && fuel > 2
    ensures var (w', r) := Retries(fuel, env, "retryNext", c, args, w, n, max);
            Settled(w, w', r) && AttemptsRun(m, c.observers, New(w, w'), r, args, n, max)
    decreases max - n
  {
    hide Invoke, LastReturned, TransactionRun, Wired, Stands;
    if !c.cancelled(w.Clock()) {
      var begun := w.Log(Attempt(n));
      Logged(w, Attempt(n));
      var (tried, inner) := Invoke(fuel - 1, env, "retryNext", c, args, begun);
      TransactionLayer(m, env, "retryNext", c, args, begun, fuel - 1);
      var body := New(begun, tried);
      TransactionHasNoEnd(m, c.observers, body, inner, args);
      var last := AttemptEnd(n, inner);
      var ended := tried.Log(last);
      Logged(tried, last);
      NewChains(w, begun, tried);
      NewChains(w, tried, ended);
      var head := [Attempt(n)] + body;
      assert New(w, ended) == head + [last];
      if inner.Error? && n < max && c.again(ended.Clock()) {
        var (w', r) := Retries(fuel, env, "retryNext", c, args, ended, n + 1, max);
        AttemptsLayer(m, env, c, args, ended, fuel, n + 1, max);
        NewChains(w, ended, w');
        var rest := New(ended, w');
        AttemptFirst(m, c.observers, body, inner, rest, r, args, n, max);
        if r.Success? { ReturnedLater(head + [last], rest, w'.result); }
      } else {
        AttemptLast(m, c.observers, body, inner, args, n, max);
        if inner.Success? {
          ReturnedLater([Attempt(n)], body, ended.result);
          ReturnedEarlier(head, [last], ended.result);
        }
      }
    } else {
      Logged(w, Abandoned(n));
    }
  }

  lemma AttemptSlices(n: nat, body: seq<Event>, last: Event, rest: seq<Event>)
    requires last.AttemptEnd? && forall i :: 0 <= i < |body| ==> !body[i].AttemptEnd?
    ensures var t, e := [Attempt(n)] + body + [last] + rest, |body| + 1;
            && FirstEnd(t) == e && |t| == e + 1 + |rest| && t[0] == Attempt(n) && t[1..e] == body && t[e] == last
            && t[e+1..] == rest
  {
    var head := [Attempt(n)] + body;
    FirstEndAt(head, last, rest);
  }

  lemma AttemptFirst(m: Policies, observers: nat, body: seq<Event>, inner: Outcome, rest: seq<Event>, r: Outcome,
                     args: seq<Value>, n: nat, max: nat)
    requires TransactionRun(m, observers, body, inner, args) && inner.Error? && n < max
    requires AttemptsRun(m, observers, rest, r, args, n + 1, max)
    ensures AttemptsRun(m, observers, [Attempt(n)] + body + [AttemptEnd(n, inner)] + rest, r, args, n, max)
  {
    hide TransactionRun, FirstEnd;
    TransactionHasNoEnd(m, observers, body, inner, args);
    AttemptSlices(n, body, AttemptEnd(n, inner), rest);
  }

  lemma AttemptLast(m: Policies, observers: nat, body: seq<Event>, inner: Outcome, args: seq<Value>, n: nat, max: nat)
    requires TransactionRun(m, observers, body, inner, args)
    ensures AttemptsRun(m, observers, [Attempt(n)] + body + [AttemptEnd(n, inner)], inner, args, n, max)
  {
    hide TransactionRun, FirstEnd;
    TransactionHasNoEnd(m, observers, body, inner, args);
    AttemptSlices(n, body, AttemptEnd(n, inner), []);
    var t := [Attempt(n)] + body + [AttemptEnd(n, inner)];
    assert t + [] == t;
  }

  lemma RetryLayer(m: Policies, env: map<string, Closure>, name: string, c: Choices, args: seq<Value>, w: World,
                   fuel: nat)
    requires Wired(m, env, OBSERVATION) && Stands(m, env, name, RETRY) && fuel > 2
    ensures var (w', r) := Invoke(fuel, env, name, c, args, w);
            Settled(w, w', r) && RetryRun(m, c.observers, New(w, w'), r, args)
  {
    if m.retry.Some? {
      AttemptsLayer(m, env, c, args, w, fuel, 1, m.retry.value);
    } else {
      TransactionLayer(m, env, name, c, args, w, fuel);
    }
  }

  ghost predicate AnsweredByHit(w: World, w': World, key: Key)
    requires Extends(w, w')
  {
    key in w.cache && w'.result == w.cache[key] && CacheGet(key, Hit(w'.result)) in New(w, w')
  }

  /** From the cache layer up a run may also answer with a hit. */
  ghost predicate Answers(w: World, w': World, r: Outcome, args: seq<Value>) {
    && Extends(w, w')
    && (r.Success? ==> (LastReturned(New(w, w'), w'.result) || AnsweredByHit(w, w', CacheKey(args))))
    && (forall k :: k in w'.cache ==>
          || (k in w.cache && w'.cache[k] == w.cache[k])
          || (k == CacheKey(args) && LastReturned(New(w, w'), w'.cache[k])))
    && (forall i :: 0 <= i < |New(w, w')| && New(w, w')[i].CacheGet? && New(w, w')[i].answer.Hit? ==>
          var get := New(w, w')[i]; get.key in w.cache && w.cache[get.key] == get.answer.value)
  }

  predicate BelowCache(e: Event) { !e.CacheGet? && !e.CachePut? && !e.Authorize? && !e.ObserveBegin? && !e.ObserveEnd? }

  /** The call of the target at this place has the run's arguments and, if there are transactions, one of its own. */
  ghost predicate OwnCall(m: Policies, args: seq<Value>, t: seq<Event>, i: int)
    requires 0 <= i < |t|
  {
    t[i].Target? ==>
      && t[i].args == args
      && (m.transaction ==> 0 < i < |t| - 1 && t[i-1] == TransactionBegin(true) && t[i+1].TransactionEnd?)
  }

  /** Nothing but attempts, transactions and calls of the target. */
  ghost predicate IsWork(m: Policies, args: seq<Value>, t: seq<Event>) {
    forall i :: 0 <= i < |t| ==> BelowCache(t[i]) && OwnCall(m, args, t, i)
  }

  lemma TransactionIsWork(m: Policies, observers: nat, t: seq<Event>, r: Outcome, args: seq<Value>)
    requires TransactionRun(m, observers, t, r, args)
    ensures IsWork(m, args, t)
  {
    if m.transaction {
      var finishes := FinishesOf(t[..observers], r);
      OnlyFinishes(t[..observers], r);
      hide FinishesOf;
      var from := if t[observers].ok then observers + 3 else observers + 1;
      forall i | from <= i < |t|
        ensures t[i].ObserverFinish?
      {
        assert t[i] == t[from..][i - from] && t[i] in finishes;
      }
      if t[observers].ok {
        assert t[observers+1..observers+2][0] == t[observers+1];
      }
    }
  }

  lemma TransactionCallsOnce(m: Policies, observers: nat, t: seq<Event>, r: Outcome, args: seq<Value>)
    requires TransactionRun(m, observers, t, r, args)
    ensures Targets(t) <= 1
  {
    if m.transaction {
      var finishes := FinishesOf(t[..observers], r);
      OnlyFinishes(t[..observers], r);
      hide FinishesOf, Targets;
      var from := if t[observers].ok then observers + 3 else observers + 1;
      forall i | from <= i < |t|
        ensures t[i].ObserverFinish?
      {
        assert t[i] == t[from..][i - from] && t[i] in finishes;
      }
      if t[observers].ok { OneTarget(t, observers + 1); } else { NoTargets(t); }
    } else {
      assert t[..0] == [] && Targets([]) == 0;
    }
  }

  lemma OneTarget(t: seq<Event>, at: nat)
    requires at < |t| && forall i :: 0 <= i < |t| && i != at ==> !t[i].Target?
    ensures Targets(t) <= 1
  {
    NoTargets(t[..at]);
    NoTargets(t[at+1..]);
    assert t[..at+1] == t[..at] + [t[at]] && t == t[..at+1] + t[at+1..];
    TargetsAppend(t[..at+1], t[at+1..]);
    assert t[..at+1][..at] == t[..at];
  }

  function Targets(t: seq<Event>): nat {
    if t == [] then 0 else Targets(t[..|t|-1]) + (if t[|t|-1].Target? then 1 else 0)
  }

  lemma {:induction false} NoTargets(t: seq<Event>)
    requires forall i :: 0 <= i < |t| ==> !t[i].Target?
    ensures Targets(t) == 0
  {
    if t != [] { NoTargets(t[..|t|-1]); }
  }

  lemma {:induction false} TargetsAppend(a: seq<Event>, b: seq<Event>)
    ensures Targets(a + b) == Targets(a) + Targets(b)
  {
    if b == [] {
      assert a + b == a;
    } else {
      TargetsAppend(a, b[..|b|-1]);
      assert (a + b)[..|a+b|-1] == a + b[..|b|-1];
    }
  }

  lemma {:induction false} AttemptsAreWork(m: Policies, observers: nat, t: seq<Event>, r: Outcome, args: seq<Value>,
                                           n: nat, max: nat)
    requires AttemptsRun(m, observers, t, r, args, n, max)
    ensures IsWork(m, args, t)
    decreases |t|
  {
    hide TransactionRun, IsWork;
    NothingIsWork(m, args, n);
    if t != [Abandoned(n)] {
      var e := FirstEnd(t);
      var rest := t[e+1..];
      TransactionIsWork(m, observers, t[1..e], t[e].outcome, args);
      if rest != [] { AttemptsAreWork(m, observers, rest, r, args, n + 1, max); }
      AttemptIsWork(m, args, t[0], t[1..e], t[e], rest);
      assert t == [t[0]] + t[1..e] + [t[e]] + rest;
    }
  }

  lemma {:induction false} AttemptsAreCounted(m: Policies, observers: nat, t: seq<Event>, r: Outcome, args: seq<Value>,
                                              n: nat, max: nat)
    requires AttemptsRun(m, observers, t, r, args, n, max)
    ensures Targets(t) <= if n < max then max - n + 1 else 1
    decreases |t|
  {
    hide TransactionRun, Targets;
    NoTargets([Abandoned(n)]);
    NoTargets([]);
    if t != [Abandoned(n)] {
      var e := FirstEnd(t);
      var rest := t[e+1..];
      TransactionCallsOnce(m, observers, t[1..e], t[e].outcome, args);
      if rest != [] { AttemptsAreCounted(m, observers, rest, r, args, n + 1, max); }
      AttemptCounts(t[0], t[1..e], t[e], rest);
      assert t == [t[0]] + t[1..e] + [t[e]] + rest;
    }
  }

  lemma AttemptCounts(first: Event, body: seq<Event>, last: Event, rest: seq<Event>)
    requires first.Attempt? && last.AttemptEnd?
    ensures Targets([first] + body + [last] + rest) == Targets(body) + Targets(rest)
  {
    hide Targets;
    TargetsAppend([first] + body + [last], rest);
    TargetsAppend([first] + body, [last]);
    TargetsAppend([first], body);
    NoTargets([first]);
    NoTargets([last]);
  }

  lemma NothingIsWork(m: Policies, args: seq<Value>, n: nat)
    ensures IsWork(m, args, []) && IsWork(m, args, [Abandoned(n)])
  {
  }

  lemma AttemptIsWork(m: Policies, args: seq<Value>, first: Event, body: seq<Event>, last: Event, rest: seq<Event>)
    requires first.Attempt? && last.AttemptEnd? && IsWork(m, args, body) && IsWork(m, args, rest)
    ensures IsWork(m, args, [first] + body + [last] + rest)
  {
    var t := [first] + body + [last] + rest;
    forall i | 0 <= i < |t| ensures BelowCache(t[i]) && OwnCall(m, args, t, i) {
      if 1 <= i <= |body| {
        assert t[i] == body[i-1] && OwnCall(m, args, body, i - 1);
      } else if i > |body| + 1 {
        assert t[i] == rest[i-|body|-2] && OwnCall(m, args, rest, i - |body| - 2);
      }
    }
  }

  function MostCalls(m: Policies): nat { if m.retry.Some? && m.retry.value > 1 then m.retry.value else 1 }

  lemma RetryIsWork(m: Policies, observers: nat, t: seq<Event>, r: Outcome, args: seq<Value>)
    requires RetryRun(m, observers, t, r, args)
    ensures IsWork(m, args, t)
  {
    if m.retry.Some? {
      AttemptsAreWork(m, observers, t, r, args, 1, m.retry.value);
    } else {
      TransactionIsWork(m, observers, t, r, args);
    }
  }

  lemma RetryIsCounted(m: Policies, observers: nat, t: seq<Event>, r: Outcome, args: seq<Value>)
    requires RetryRun(m, observers, t, r, args)
    ensures Targets(t) <= MostCalls(m)
  {
    if m.retry.Some? {
      AttemptsAreCounted(m, observers, t, r, args, 1, m.retry.value);
    } else {
      TransactionCallsOnce(m, observers, t, r, args);
    }
  }

  lemma CacheLayer(m: Policies, env: map<string, Closure>, name: string, c: Choices, args: seq<Value>, w: World,
                   fuel: nat)
    requires Wired(m, env, OBSERVATION) && Stands(m, env, name, CACHE) && fuel > 3
    ensures var (w', r) := Invoke(fuel, env, name, c, args, w);
            Answers(w, w', r, args) && CacheRun(m, c.observers, New(w, w'), r, args)
  {
    if !m.cache {
      hide LastReturned, RetryRun;
      var (w', r) := Invoke(fuel, env, name, c, args, w);
      RetryLayer(m, env, name, c, args, w, fuel);
      RetryIsWork(m, c.observers, New(w, w'), r, args);
    } else {
      CacheAnswers(m, env, c, args, w, fuel);
    }
  }

  lemma CacheAnswers(m: Policies, env: map<string, Closure>, c: Choices, args: seq<Value>, w: World, fuel: nat)
    requires m.cache && Wired(m, env, OBSERVATION) && Stands(m, env, "cacheNext", RETRY) && fuel > 3
    ensures var (w', r) := LooksUp(fuel, env, "cacheNext", c, args, w);
            Answers(w, w', r, args) && CacheRun(m, c.observers, New(w, w'), r, args)
  {
    hide LastReturned, RetryRun, Invoke, Wired, Stands, CacheRun, Answers, IsWork;
    var (w', r) := LooksUp(fuel, env, "cacheNext", c, args, w);
    var key := CacheKey(args);
    if c.unreadable(w.Clock()) || (key in w.cache && !c.expired(w.Clock())) {
      OneLookup(m, env, c, args, w, fuel);
    } else {
      var get := CacheGet(key, Miss);
      var missed := w.Log(get);
      Logged(w, get);
      var (done, inner) := Invoke(fuel - 1, env, "cacheNext", c, args, missed);
      RetryLayer(m, env, "cacheNext", c, args, missed, fuel - 1);
      var body := New(missed, done);
      RetryIsWork(m, c.observers, body, inner, args);
      NewChains(w, missed, done);
      if inner.Success? {
        var put := CachePut(key, done.result, !c.unwritable(done.Clock()));
        Logged(done, put);
        NewChains(w, done, done.Log(put));
        StoredShape(m, c.observers, get, body, put, done.result, args);
        Same(w, done.Log(put), w');
        MissAnswers(w, w', r, get, args);
      } else {
        MissedShape(m, c.observers, get, body, inner, args);
        MissAnswers(w, w', r, get, args);
      }
    }
  }

  lemma Same(w: World, a: World, b: World)
    requires Extends(w, a) && a.trace == b.trace
    ensures Extends(w, b) && New(w, b) == New(w, a)
  {
  }

  lemma OneLookup(m: Policies, env: map<string, Closure>, c: Choices, args: seq<Value>, w: World, fuel: nat)
    requires m.cache && fuel > 0 && (c.unreadable(w.Clock()) || (CacheKey(args) in w.cache && !c.expired(w.Clock())))
    ensures var (w', r) := LooksUp(fuel, env, "cacheNext", c, args, w);
            Answers(w, w', r, args) && CacheRun(m, c.observers, New(w, w'), r, args)
  {
    hide LastReturned, RetryRun, Invoke;
    var (w', r) := LooksUp(fuel, env, "cacheNext", c, args, w);
    var get := CacheGet(CacheKey(args), if c.unreadable(w.Clock()) then Unreadable else Hit(w.cache[CacheKey(args)]));
    assert New(w, w') == [get];
  }

  lemma MissAnswers(w: World, w': World, r: Outcome, get: Event, args: seq<Value>)
    requires Extends(w, w') && get == CacheGet(CacheKey(args), Miss)
    requires forall i :: 0 <= i < |New(w, w')| && New(w, w')[i].CacheGet? ==> New(w, w')[i] == get
    requires r.Success? ==> LastReturned(New(w, w'), w'.result)
    requires forall k :: k in w'.cache && (k !in w.cache || w'.cache[k] != w.cache[k]) ==>
               k == CacheKey(args) && w'.cache[k] == w'.result && LastReturned(New(w, w'), w'.result)
    ensures Answers(w, w', r, args)
  {
    hide LastReturned;
  }

  lemma StoredShape(m: Policies, observers: nat, get: Event, body: seq<Event>, put: Event, result: Value,
                    args: seq<Value>)
    requires m.cache && get == CacheGet(CacheKey(args), Miss) && put.CachePut? && put.key == CacheKey(args)
    requires put.value == result
    requires RetryRun(m, observers, body, Success, args) && LastReturned(body, result) && IsWork(m, args, body)
    ensures var t := [get] + body + [put];
            && CacheRun(m, observers, t, if put.ok then Success else Error(CacheWrite), args) && LastReturned(t, result)
            && forall i :: 0 <= i < |t| && t[i].CacheGet? ==> t[i] == get
  {
    hide RetryRun, LastReturned;
    var t := [get] + body + [put];
    assert t[1..|t|-1] == body && t[0] == get && t[|t|-1] == put;
    ReturnedLater([get], body, result);
    ReturnedEarlier([get] + body, [put], result);
  }

  lemma MissedShape(m: Policies, observers: nat, get: Event, body: seq<Event>, r: Outcome, args: seq<Value>)
    requires m.cache && get == CacheGet(CacheKey(args), Miss) && RetryRun(m, observers, body, r, args) && !r.Success?
    requires IsWork(m, args, body)
    ensures var t := [get] + body;
            CacheRun(m, observers, t, r, args) && forall i :: 0 <= i < |t| && t[i].CacheGet? ==> t[i] == get
  {
    hide RetryRun;
    var t := [get] + body;
    assert t[1..] == body && t[0] == get;
  }

  lemma AnswersWrapped(w: World, first: Event, inner: World, inner': World, last: Option<Event>, w': World, r: Outcome,
                       args: seq<Value>)
    requires inner == w.Log(first) && Answers(inner, inner', r, args)
    requires w' == if last.Some? then inner'.Log(last.value) else inner'
    requires !first.Target? && !first.CacheGet? && (last.Some? ==> !last.value.Target? && !last.value.CacheGet?)
    ensures Answers(w, w', r, args)
    ensures New(w, w') == [first] + New(inner, inner') + (if last.Some? then [last.value] else [])
  {
    hide LastReturned;
    Logged(w, first);
    NewChains(w, inner, inner');
    var body, tail := New(inner, inner'), if last.Some? then [last.value] else [];
    if last.Some? {
      Logged(inner', last.value);
      NewChains(w, inner', w');
    }
    var t := New(w, w');
    assert t == [first] + body + tail;
    forall value | LastReturned(body, value) ensures LastReturned(t, value) {
      ReturnedLater([first], body, value);
      ReturnedEarlier([first] + body, tail, value);
    }
    forall e | e in body ensures e in t { var i :| 0 <= i < |body| && body[i] == e; assert t[i+1] == e; }
    forall i | 0 <= i < |t| && t[i].CacheGet? ensures 1 <= i <= |body| && t[i] == body[i-1] {}
  }

  lemma AuthorizationLayer(m: Policies, env: map<string, Closure>, name: string, c: Choices, args: seq<Value>,
                           w: World, fuel: nat)
    requires Wired(m, env, OBSERVATION) && Stands(m, env, name, AUTHORIZATION) && fuel > 4
    ensures var (w', r) := Invoke(fuel, env, name, c, args, w);
            && Answers(w, w', r, args) && AuthorizationRun(m, c.observers, New(w, w'), r, args)
            && (m.authorization ==> New(w, w')[0] == Authorize(c.allowed(w.Clock())))
  {
    hide CacheRun, LastReturned;
    var (w', r) := Invoke(fuel, env, name, c, args, w);
    if !m.authorization {
      CacheLayer(m, env, name, c, args, w, fuel);
    } else if c.allowed(w.Clock()) {
      var inner := w.Log(Authorize(true));
      CacheLayer(m, env, "authorizationNext", c, args, inner, fuel - 1);
      AnswersWrapped(w, Authorize(true), inner, w', None, w', r, args);
      assert New(w, w')[1..] == New(inner, w');
    } else {
      assert New(w, w') == [Authorize(false)];
    }
  }

  lemma ObservationLayer(m: Policies, env: map<string, Closure>, name: string, c: Choices, args: seq<Value>, w: World,
                         fuel: nat)
    requires Wired(m, env, OBSERVATION) && Stands(m, env, name, OBSERVATION) && fuel > 5
    ensures var (w', r) := Invoke(fuel, env, name, c, args, w);
            Answers(w, w', r, args) && ObservedRun(m, c.observers, New(w, w'), r, args)
  {
    hide AuthorizationRun, LastReturned, Answers;
    var (w', r) := Invoke(fuel, env, name, c, args, w);
    if !m.observation {
      AuthorizationLayer(m, env, name, c, args, w, fuel);
    } else {
      var begun := w.Log(ObserveBegin);
      var (inner, _) := Invoke(fuel - 1, env, "observationNext", c, args, begun);
      AuthorizationLayer(m, env, "observationNext", c, args, begun, fuel - 1);
      AnswersExtends(begun, inner, r, args);
      AnswersWrapped(w, ObserveBegin, begun, inner, Some(ObserveEnd(r)), w', r, args);
      AnswersExtends(w, w', r, args);
      var t := New(w, w');
      assert t[1..|t|-1] == New(begun, inner) && t[0] == ObserveBegin && t[|t|-1] == ObserveEnd(r);
    }
  }

  lemma AnswersExtends(w: World, w': World, r: Outcome, args: seq<Value>)
    requires Answers(w, w', r, args)
    ensures Extends(w, w')
  {
  }
}
