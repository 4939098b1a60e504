/**
 * What every run of a generated decorator keeps, and what its cache answers across runs (README.md: method
 * policies).
 */
module DecoratorRuns {
  import opened Decorator
  import opened DecoratorChoices

  const ENOUGH := 6

  /**
   * Running the emitted body, whatever the runtime chooses, never gets stuck, has the documented shape, and records
   * at every moment what was chosen then. The caller is denied exactly when the authorizer refuses.
   */
  lemma RunsAsDocumented(m: Policies, source: seq<Statement>, c: Choices, args: seq<Value>, w: World, fuel: nat)
    requires Wired(m, Execute(source), OBSERVATION) && fuel >= ENOUGH
    ensures var (w', r) := Invoke(fuel, Execute(source), "invoke", c, args, w);
            && Answers(w, w', r, args) && ObservedRun(m, c.observers, New(w, w'), r, args) && r != Stuck
            && Obeyed(m, c, w, w') && CacheFollows(c, w, w')
            && (m.authorization ==>
                  && |New(w, w')| > After(m) && New(w, w')[After(m)] == Authorize(c.allowed(w.Clock() + After(m)))
                  && (r == Error(Denied) <==> !c.allowed(w.Clock() + After(m))))
  {
    hide ObservedRun, Answers, Chosen, CacheFollows, Stands, IsDenied;
    var (w', r) := Invoke(fuel, Execute(source), "invoke", c, args, w);
    ObservationLayer(m, Execute(source), "invoke", c, args, w, fuel);
    AnswersExtends(w, w', r, args);
    NeverStuck(m, c.observers, New(w, w'), r, args);
    RunObeys(m, Execute(source), "invoke", c, args, w, fuel);
    if m.authorization {
      DenialComesFirst(m, c.observers, New(w, w'), r, args);
      PermissionChosen(m, c, w, w', After(m));
    }
  }

  lemma PermissionChosen(m: Policies, c: Choices, w: World, w': World, i: nat)
    requires Obeyed(m, c, w, w') && i < |New(w, w')| && New(w, w')[i].Authorize?
    ensures New(w, w')[i] == Authorize(c.allowed(w.Clock() + i))
  {
    assert ObeysAt(m, c, w.cache, |w.trace|, New(w, w'), i);
  }

  lemma {:induction false} AttemptsNeverStuck(m: Policies, observers: nat, t: seq<Event>, r: Outcome, args: seq<Value>,
                                              n: nat, max: nat)
    requires AttemptsRun(m, observers, t, r, args, n, max)
    ensures r != Stuck
    decreases |t|
  {
    if t != [Abandoned(n)] {
      var e := FirstEnd(t);
      assert TransactionRun(m, observers, t[1..e], t[e].outcome, args);
      if e < |t| - 1 { AttemptsNeverStuck(m, observers, t[e+1..], r, args, n + 1, max); }
    }
  }

  lemma RetryNeverStuck(m: Policies, observers: nat, t: seq<Event>, r: Outcome, args: seq<Value>)
    requires RetryRun(m, observers, t, r, args)
    ensures r != Stuck
  {
    if m.retry.Some? { AttemptsNeverStuck(m, observers, t, r, args, 1, m.retry.value); }
  }

  lemma CacheNeverStuck(m: Policies, observers: nat, t: seq<Event>, r: Outcome, args: seq<Value>)
    requires CacheRun(m, observers, t, r, args)
    ensures r != Stuck
  {
    hide RetryRun, LastReturned;
    if !m.cache {
      RetryNeverStuck(m, observers, t, r, args);
    } else if t[0].answer.Miss? && !t[|t|-1].CachePut? {
      RetryNeverStuck(m, observers, t[1..], r, args);
    }
  }

  lemma NeverStuck(m: Policies, observers: nat, t: seq<Event>, r: Outcome, args: seq<Value>)
    requires ObservedRun(m, observers, t, r, args)
    ensures r != Stuck
  {
    hide CacheRun;
    var inner := if m.observation then t[1..|t|-1] else t;
    if !m.authorization || inner[0].allowed {
      CacheNeverStuck(m, observers, if m.authorization then inner[1..] else inner, r, args);
    }
  }

  // ----- The cache layer inside a run ------------------------------------------------------------

  predicate Outer(e: Event) { e.ObserveBegin? || e.ObserveEnd? || e.Authorize? }

  function Before(m: Policies): nat { (if m.observation then 1 else 0) + (if m.authorization then 1 else 0) }

  function After(m: Policies): nat { if m.observation then 1 else 0 }

  ghost predicate IsDenied(m: Policies, t: seq<Event>) {
    m.authorization && |t| == 2 * After(m) + 1 && t[After(m)] == Authorize(false)
  }

  /** Everything but the observation marks and the permission. */
  ghost function Core(m: Policies, t: seq<Event>): seq<Event>
    requires |t| >= Before(m) + After(m)
  {
    t[Before(m)..|t|-After(m)]
  }

  lemma CoreAt(m: Policies, t: seq<Event>, i: nat)
    requires |t| >= Before(m) + After(m) && Before(m) <= i < |t| - After(m)
    ensures i - Before(m) < |Core(m, t)| && t[i] == Core(m, t)[i - Before(m)]
  {
  }

  lemma CoreIsCacheRun(m: Policies, observers: nat, t: seq<Event>, r: Outcome, args: seq<Value>)
    requires ObservedRun(m, observers, t, r, args)
    ensures !IsDenied(m, t) ==>
              && |t| >= Before(m) + After(m) && CacheRun(m, observers, Core(m, t), r, args)
              && forall i :: 0 <= i < |t| && !(Before(m) <= i < |t| - After(m)) ==>
                   Outer(t[i]) && t[i] != Authorize(false)
    ensures IsDenied(m, t) ==> r == Error(Denied) && forall i :: 0 <= i < |t| ==> Outer(t[i])
  {
    hide CacheRun;
    var inner := if m.observation then t[1..|t|-1] else t;
    assert AuthorizationRun(m, observers, inner, r, args);
    if m.authorization {
      assert t[After(m)] == inner[0];
      if inner[0].allowed { assert inner[1..] == Core(m, t); }
    } else {
      assert inner == Core(m, t);
    }
  }

  // ----- What the layers promise -----------------------------------------------------------------

  /** Observation encloses everything else and reports the run's own outcome. */
  lemma ObservationEncloses(m: Policies, observers: nat, t: seq<Event>, r: Outcome, args: seq<Value>)
    requires m.observation && ObservedRun(m, observers, t, r, args)
    ensures |t| > 1 && t[0] == ObserveBegin && t[|t|-1] == ObserveEnd(r)
    ensures forall i :: 0 < i < |t| - 1 ==> !t[i].ObserveBegin? && !t[i].ObserveEnd?
  {
    hide CacheRun;
    var inner := t[1..|t|-1];
    var body := if m.authorization then inner[1..] else inner;
    assert AuthorizationRun(m, observers, inner, r, args);
    if !m.authorization || inner[0].allowed { CacheFacts(m, observers, body, r, args); }
    forall i | 0 < i < |t| - 1 ensures !t[i].ObserveBegin? && !t[i].ObserveEnd? {
      assert t[i] == inner[i-1];
      if i - 1 >= |inner| - |body| { assert t[i] == body[i - 1 - (|inner| - |body|)]; }
    }
  }

  /** Permission is asked once, before anything but observation; a denial is the whole run. */
  lemma DenialComesFirst(m: Policies, observers: nat, t: seq<Event>, r: Outcome, args: seq<Value>)
    requires m.authorization && ObservedRun(m, observers, t, r, args)
    ensures |t| > After(m) && t[After(m)].Authorize? && forall i :: 0 <= i < |t| && i != After(m) ==> !t[i].Authorize?
    ensures r == Error(Denied) <==> !t[After(m)].allowed
    ensures !t[After(m)].allowed ==> forall i :: 0 <= i < |t| ==> Outer(t[i])
  {
    hide CacheRun;
    CoreIsCacheRun(m, observers, t, r, args);
    var inner := if m.observation then t[1..|t|-1] else t;
    assert AuthorizationRun(m, observers, inner, r, args) && t[After(m)] == inner[0];
    if !IsDenied(m, t) {
      CacheFacts(m, observers, Core(m, t), r, args);
      forall i | 0 <= i < |t| && i != After(m) ensures !t[i].Authorize? {
        if Before(m) <= i < |t| - After(m) { CoreAt(m, t, i); }
      }
    }
  }

  ghost predicate FactsOf(m: Policies, t: seq<Event>, r: Outcome, args: seq<Value>) {
    && r != Error(Denied) && Targets(t) <= MostCalls(m)
    && (forall i :: 0 <= i < |t| ==> !Outer(t[i]) && OwnCall(m, args, t, i))
    && (forall i :: 0 <= i < |t| && t[i].CacheGet? && !t[i].answer.Miss? ==>
          |t| == 1 && (t[i].answer.Hit? <==> r == Success))
    && (forall i :: 0 <= i < |t| && t[i].CachePut? ==>
          i == |t| - 1 && i > 0 && t[0] == CacheGet(t[i].key, Miss) && t[i].key == CacheKey(args)
          && LastReturned(t, t[i].value))
  }

  lemma CacheFacts(m: Policies, observers: nat, t: seq<Event>, r: Outcome, args: seq<Value>)
    requires CacheRun(m, observers, t, r, args)
    ensures FactsOf(m, t, r, args)
  {
    if !m.cache {
      WorkFacts(m, observers, t, r, args);
    } else if t[0].answer.Miss? {
      hide RetryRun, LastReturned;
      var stored := t[|t|-1].CachePut?;
      var inner := if stored then Success else r;
      var body := if stored then t[1..|t|-1] else t[1..];
      WorkFacts(m, observers, body, inner, args);
      if stored { assert t == [t[0]] + body + [t[|t|-1]]; } else { assert t == [t[0]] + body; }
      MissFacts(m, t, body, r, args);
    } else {
      NoTargets(t);
    }
  }

  lemma MissFacts(m: Policies, t: seq<Event>, body: seq<Event>, r: Outcome, args: seq<Value>)
    requires r != Error(Denied) && IsWork(m, args, body) && Targets(body) <= MostCalls(m)
    requires |t| > |body| && t[0] == CacheGet(CacheKey(args), Miss)
    requires t == [t[0]] + body
        || (t == [t[0]] + body + [t[|t|-1]] && t[|t|-1].CachePut? && t[|t|-1].key == CacheKey(args)
            && LastReturned(t, t[|t|-1].value))
    ensures FactsOf(m, t, r, args)
  {
    hide LastReturned, Targets, IsWork, OwnCall, CacheKey, MostCalls;
    var last := if t == [t[0]] + body then [] else [t[|t|-1]];
    assert t == [t[0]] + body + last;
    MissCalls(t[0], body, last);
    forall i | 0 <= i < |t| ensures !Outer(t[i]) && OwnCall(m, args, t, i) && (1 <= i <= |body| ==> BelowCache(t[i])) {
      if 1 <= i <= |body| { WorkAt(m, args, t[0], body, last, i); } else { NotTargetIsOwn(m, args, t, i); }
    }
  }

  lemma NotTargetIsOwn(m: Policies, args: seq<Value>, t: seq<Event>, i: nat)
    requires i < |t| && !t[i].Target?
    ensures OwnCall(m, args, t, i)
  {
  }

  lemma MissCalls(get: Event, body: seq<Event>, last: seq<Event>)
    requires !get.Target? && |last| <= 1 && (last != [] ==> !last[0].Target?)
    ensures Targets([get] + body + last) == Targets(body)
  {
    hide Targets;
    NoTargets([get]);
    NoTargets(last);
    TargetsAppend([get], body);
    TargetsAppend([get] + body, last);
  }

  lemma WorkAt(m: Policies, args: seq<Value>, get: Event, body: seq<Event>, last: seq<Event>, i: nat)
    requires IsWork(m, args, body) && 1 <= i <= |body|
    ensures var t := [get] + body + last; BelowCache(t[i]) && OwnCall(m, args, t, i)
  {
    var t := [get] + body + last;
    assert t[i] == body[i-1] && BelowCache(body[i-1]) && OwnCall(m, args, body, i - 1);
  }

  lemma WorkFacts(m: Policies, observers: nat, t: seq<Event>, r: Outcome, args: seq<Value>)
    requires RetryRun(m, observers, t, r, args)
    ensures IsWork(m, args, t) && Targets(t) <= MostCalls(m) && r != Error(Denied) && FactsOf(m, t, r, args)
  {
    RetryIsWork(m, observers, t, r, args);
    RetryIsCounted(m, observers, t, r, args);
    RetryNeverDenied(m, observers, t, r, args);
    hide RetryRun, Targets, LastReturned;
  }

  lemma {:induction false} AttemptsNeverDenied(m: Policies, observers: nat, t: seq<Event>, r: Outcome,
                                               args: seq<Value>, n: nat, max: nat)
    requires AttemptsRun(m, observers, t, r, args, n, max)
    ensures r != Error(Denied)
    decreases |t|
  {
    if t != [Abandoned(n)] {
      var e := FirstEnd(t);
      assert TransactionRun(m, observers, t[1..e], t[e].outcome, args);
      TransactionNeverDenied(m, observers, t[1..e], t[e].outcome, args);
      if e < |t| - 1 { AttemptsNeverDenied(m, observers, t[e+1..], r, args, n + 1, max); }
    }
  }

  lemma TransactionNeverDenied(m: Policies, observers: nat, t: seq<Event>, r: Outcome, args: seq<Value>)
    requires TransactionRun(m, observers, t, r, args)
    ensures r != Error(Denied)
  {
  }

  lemma RetryNeverDenied(m: Policies, observers: nat, t: seq<Event>, r: Outcome, args: seq<Value>)
    requires RetryRun(m, observers, t, r, args)
    ensures r != Error(Denied)
  {
    if m.retry.Some? { AttemptsNeverDenied(m, observers, t, r, args, 1, m.retry.value); }
  }

  lemma FactsOfRun(m: Policies, observers: nat, t: seq<Event>, r: Outcome, args: seq<Value>)
    requires ObservedRun(m, observers, t, r, args) && !IsDenied(m, t)
    ensures |t| >= Before(m) + After(m) && FactsOf(m, Core(m, t), r, args)
    ensures forall i :: 0 <= i < |t| && !(Before(m) <= i < |t| - After(m)) ==> Outer(t[i])
  {
    CoreIsCacheRun(m, observers, t, r, args);
    CacheFacts(m, observers, Core(m, t), r, args);
  }

  /** A hit runs no attempt, no transaction and no target, stores nothing, and succeeds. */
  lemma HitRunsNothing(m: Policies, observers: nat, t: seq<Event>, r: Outcome, args: seq<Value>, i: nat)
    requires ObservedRun(m, observers, t, r, args) && i < |t| && t[i].CacheGet? && t[i].answer.Hit?
    ensures r == Success && forall j :: 0 <= j < |t| && j != i ==> Outer(t[j])
  {
    hide ObservedRun, CacheRun, IsDenied, Core, OwnCall, LastReturned, Targets, MostCalls;
    CoreIsCacheRun(m, observers, t, r, args);
    FactsOfRun(m, observers, t, r, args);
    assert Before(m) <= i < |t| - After(m);
    CoreAt(m, t, i);
    CoreLength(m, t);
  }

  lemma CoreLength(m: Policies, t: seq<Event>)
    requires |t| >= Before(m) + After(m)
    ensures |Core(m, t)| == |t| - Before(m) - After(m)
  {
  }

  /** The run is its core between observation marks and permission. */
  lemma FramedRun(m: Policies, observers: nat, t: seq<Event>, r: Outcome, args: seq<Value>)
    returns (head: seq<Event>, core: seq<Event>, tail: seq<Event>)
    requires ObservedRun(m, observers, t, r, args) && !IsDenied(m, t)
    ensures t == head + core + tail && FactsOf(m, core, r, args)
    ensures (forall i :: 0 <= i < |head| ==> Outer(head[i])) && (forall i :: 0 <= i < |tail| ==> Outer(tail[i]))
  {
    hide ObservedRun, FactsOf, IsDenied, Outer, Before, After;
    FactsOfRun(m, observers, t, r, args);
    head, core, tail := t[..Before(m)], Core(m, t), t[|t|-After(m)..];
  }

  /**
   * A store follows a miss on the same key, holds what the target last returned, and only observation ends after
   * it.
   */
  lemma StoreFollowsSuccess(m: Policies, observers: nat, t: seq<Event>, r: Outcome, args: seq<Value>, i: nat)
    requires ObservedRun(m, observers, t, r, args) && i < |t| && t[i].CachePut?
    ensures t[i].key == CacheKey(args) && CacheGet(t[i].key, Miss) in t[..i] && LastReturned(t[..i], t[i].value)
    ensures forall j :: i < j < |t| ==> Outer(t[j])
  {
    hide ObservedRun, LastReturned, FactsOf;
    if IsDenied(m, t) {
      CoreIsCacheRun(m, observers, t, r, args);
    } else {
      var head, core, tail := FramedRun(m, observers, t, r, args);
      var k := i - |head|;
      StoreFacts(m, core, r, args, head, tail, i);
      assert t[i] == core[k] && core == core[..k] + [core[k]];
      assert t[..i] == head + core[..k] && head + core[..k] == head + ([core[0]] + core[1..k]);
      assert (head + core[..k])[|head|] == core[0];
      ReturnedBeforeLast(core, t[i].value);
      ReturnedLater(head, core[..k], t[i].value);
    }
  }

  lemma StoreFacts(m: Policies, core: seq<Event>, r: Outcome, args: seq<Value>, head: seq<Event>, tail: seq<Event>,
                   i: nat)
    requires FactsOf(m, core, r, args)
    requires (forall j :: 0 <= j < |head| ==> Outer(head[j])) && (forall j :: 0 <= j < |tail| ==> Outer(tail[j]))
    requires i < |head + core + tail| && (head + core + tail)[i].CachePut?
    ensures var put := (head + core + tail)[i];
            && |core| > 1 && i == |head| + |core| - 1 && put == core[|core|-1]
            && core[0] == CacheGet(put.key, Miss) && put.key == CacheKey(args) && LastReturned(core, put.value)
    ensures forall j :: i < j < |head + core + tail| ==> Outer((head + core + tail)[j])
  {
    hide LastReturned;
    var t := head + core + tail;
    assert |head| <= i < |head| + |core| && t[i] == core[i - |head|];
    forall j | i < j < |t| ensures Outer(t[j]) { assert t[j] == tail[j - |head| - |core|]; }
  }

  lemma ReturnedBeforeLast(t: seq<Event>, value: Value)
    requires LastReturned(t, value) && |t| > 0 && !t[|t|-1].Target?
    ensures LastReturned(t[..|t|-1], value)
  {
    var x :| 0 <= x < |t| && t[x].Target? && t[x].outcome.Success? && t[x].value == value
             && forall j :: x < j < |t| ==> !t[j].Target?;
    var s := t[..|t|-1];
    assert s[x] == t[x];
  }

  /** Every call of the target is inside a transaction of its own, and there are no more calls than attempts allowed. */
  lemma EachCallHasItsTransaction(m: Policies, observers: nat, t: seq<Event>, r: Outcome, args: seq<Value>)
    requires ObservedRun(m, observers, t, r, args)
    ensures forall i :: 0 <= i < |t| ==> OwnCall(m, args, t, i)
    ensures Targets(t) <= MostCalls(m)
  {
    hide ObservedRun, Targets;
    if IsDenied(m, t) {
      CoreIsCacheRun(m, observers, t, r, args);
      NoTargets(t);
    } else {
      var head, core, tail := FramedRun(m, observers, t, r, args);
      CallsLifted(m, args, head, core, tail);
      NoTargets(head);
      NoTargets(tail);
      TargetsAppend(head + core, tail);
      TargetsAppend(head, core);
    }
  }

  lemma CallsLifted(m: Policies, args: seq<Value>, head: seq<Event>, core: seq<Event>, tail: seq<Event>)
    requires (forall i :: 0 <= i < |head| ==> Outer(head[i])) && (forall i :: 0 <= i < |tail| ==> Outer(tail[i]))
    requires forall i :: 0 <= i < |core| ==> OwnCall(m, args, core, i)
    ensures forall i :: 0 <= i < |head + core + tail| ==> OwnCall(m, args, head + core + tail, i)
  {
    var t := head + core + tail;
    forall i | 0 <= i < |t| ensures OwnCall(m, args, t, i) {
      var k := i - |head|;
      if 0 <= k < |core| {
        assert t[i] == core[k] && OwnCall(m, args, core, k);
      }
    }
  }

  // ----- Many runs on one cache ------------------------------------------------------------------

  /** An earlier successful call with these cached arguments gave this value. */
  ghost predicate Came(trace: seq<Event>, before: nat, key: Key, value: Value) {
    exists j :: 0 <= j < before && j < |trace| && trace[j].Target? && trace[j].outcome.Success?
                && CacheKey(trace[j].args) == key && trace[j].value == value
  }

  ghost predicate Grounded(w: World) {
    && (forall key :: key in w.cache ==> Came(w.trace, |w.trace|, key, w.cache[key]))
    && (forall i :: 0 <= i < |w.trace| && w.trace[i].CacheGet? && w.trace[i].answer.Hit? ==>
          Came(w.trace, i, w.trace[i].key, w.trace[i].answer.value))
  }

  lemma CameStays(trace: seq<Event>, longer: seq<Event>, before: nat, after: nat, key: Key, value: Value)
    requires Came(trace, before, key, value) && trace <= longer && before <= after
    ensures Came(longer, after, key, value)
  {
    var j :| 0 <= j < before && j < |trace| && trace[j].Target? && trace[j].outcome.Success?
             && CacheKey(trace[j].args) == key && trace[j].value == value;
    assert longer[j] == trace[j];
  }

  lemma ReturnedCame(w: World, w': World, args: seq<Value>, value: Value)
    requires Extends(w, w') && LastReturned(New(w, w'), value)
    requires forall i :: 0 <= i < |New(w, w')| && New(w, w')[i].Target? ==> New(w, w')[i].args == args
    ensures Came(w'.trace, |w'.trace|, CacheKey(args), value)
  {
    var t := New(w, w');
    var x :| 0 <= x < |t| && t[x].Target? && t[x].outcome.Success? && t[x].value == value
             && forall j :: x < j < |t| ==> !t[j].Target?;
    assert w'.trace[|w.trace| + x] == t[x];
  }

  lemma RunStaysGrounded(m: Policies, observers: nat, w: World, w': World, r: Outcome, args: seq<Value>)
    requires Grounded(w) && Answers(w, w', r, args) && ObservedRun(m, observers, New(w, w'), r, args)
    ensures Grounded(w')
    ensures r.Success? ==> Came(w'.trace, |w'.trace|, CacheKey(args), w'.result)
  {
    hide ObservedRun, LastReturned;
    var t := New(w, w');
    EachCallHasItsTransaction(m, observers, t, r, args);
    assert forall i :: 0 <= i < |t| && t[i].Target? ==> OwnCall(m, args, t, i);
    assert w'.trace == w.trace + t;
    forall key | key in w'.cache ensures Came(w'.trace, |w'.trace|, key, w'.cache[key]) {
      if key in w.cache && w'.cache[key] == w.cache[key] {
        CameStays(w.trace, w'.trace, |w.trace|, |w'.trace|, key, w.cache[key]);
      } else {
        ReturnedCame(w, w', args, w'.cache[key]);
      }
    }
    forall i | 0 <= i < |w'.trace| && w'.trace[i].CacheGet? && w'.trace[i].answer.Hit?
      ensures Came(w'.trace, i, w'.trace[i].key, w'.trace[i].answer.value)
    {
      if i < |w.trace| {
        assert w'.trace[i] == w.trace[i];
        CameStays(w.trace, w'.trace, i, i, w.trace[i].key, w.trace[i].answer.value);
      } else {
        var get := t[i - |w.trace|];
        assert get == w'.trace[i];
        CameStays(w.trace, w'.trace, |w.trace|, i, get.key, get.answer.value);
      }
    }
    if r.Success? {
      if LastReturned(t, w'.result) {
        ReturnedCame(w, w', args, w'.result);
      } else {
        assert AnsweredByHit(w, w', CacheKey(args));
        CameStays(w.trace, w'.trace, |w.trace|, |w'.trace|, CacheKey(args), w'.result);
      }
    }
  }

  /** The world after calls one after another. */
  function RunAll(env: map<string, Closure>, c: Choices, calls: seq<seq<Value>>, w: World): World {
    if calls == [] then w
    else Invoke(ENOUGH, env, "invoke", c, calls[|calls|-1], RunAll(env, c, calls[..|calls|-1], w)).0
  }

  /** After any calls, every hit repeated what the target had returned for the same cached arguments. */
  lemma {:induction false} HitsRepeatTheTarget(m: Policies, source: seq<Statement>, c: Choices, calls: seq<seq<Value>>,
                                               w: World)
    requires Wired(m, Execute(source), OBSERVATION) && w.cache == map[] && w.trace == []
    ensures Grounded(RunAll(Execute(source), c, calls, w))
  {
    if calls != [] {
      HitsRepeatTheTarget(m, source, c, calls[..|calls|-1], w);
      var before := RunAll(Execute(source), c, calls[..|calls|-1], w);
      var args := calls[|calls|-1];
      var (after, r) := Invoke(ENOUGH, Execute(source), "invoke", c, args, before);
      hide Invoke, ObservedRun, Answers, Grounded, Obeyed, CacheFollows;
      RunsAsDocumented(m, source, c, args, before, ENOUGH);
      AnswersExtends(before, after, r, args);
      RunStaysGrounded(m, c.observers, before, after, r, args);
    }
  }

  // ----- Calls that overlap in time --------------------------------------------------------------

  /** One event of one call; every call has a number of its own. */
  datatype Step = Step(call: nat, event: Event)

  /** What one call did, in order. */
  ghost function Doings(steps: seq<Step>, call: nat): seq<Event> {
    if steps == [] then []
    else
      var before := Doings(steps[..|steps|-1], call);
      if steps[|steps|-1].call == call then before + [steps[|steps|-1].event] else before
  }

  /**
   * The cache that all calls share: a hit gives what is there at that moment, only a successful store adds
   * anything, and entries may disappear at any time.
   */
  ghost predicate CacheStep(before: map<Key, Value>, e: Event, after: map<Key, Value>) {
    && (e.CacheGet? && e.answer.Hit? ==> e.key in before && before[e.key] == e.answer.value)
    && forall k :: k in after ==>
         || (k in before && after[k] == before[k])
         || (e.CachePut? && e.ok && k == e.key && after[k] == e.value)
  }

  /** Each call does, as far as it got, what a run of the decorated method with its arguments does. */
  ghost predicate Interleaves(m: Policies, args: nat -> seq<Value>, steps: seq<Step>, caches: seq<map<Key, Value>>) {
    && |caches| == |steps| + 1 && caches[0] == map[]
    && (forall i, j :: 0 <= i < |steps| && j == i + 1 ==> CacheStep(caches[i], steps[i].event, caches[j]))
    && (forall call :: BeginsRun(m, args(call), Doings(steps, call)))
  }

  ghost predicate BeginsRun(m: Policies, args: seq<Value>, done: seq<Event>) {
    exists observers, t, r :: ObservedRun(m, observers, t, r, args) && done <= t
  }

  /** The target gave this value for these cached arguments before the n-th step. */
  ghost predicate Given(steps: seq<Step>, n: nat, key: Key, value: Value) {
    exists j :: 0 <= j < n && j < |steps| && Gives(steps[j].event, key, value)
  }

  predicate Gives(e: Event, key: Key, value: Value) {
    e.Target? && e.outcome.Success? && CacheKey(e.args) == key && e.value == value
  }

  lemma {:induction false} DoingsGrow(steps: seq<Step>, i: nat, call: nat)
    requires i <= |steps|
    ensures Doings(steps[..i], call) <= Doings(steps, call)
    decreases |steps|
  {
    if i < |steps| {
      DoingsGrow(steps[..|steps|-1], i, call);
      assert steps[..|steps|-1][..i] == steps[..i];
    } else {
      assert steps[..i] == steps;
    }
  }

  /** Whatever a call did is one of the steps. */
  lemma {:induction false} DoingIsStep(steps: seq<Step>, call: nat, k: nat) returns (j: nat)
    requires k < |Doings(steps, call)|
    ensures j < |steps| && steps[j] == Step(call, Doings(steps, call)[k])
  {
    var init := steps[..|steps|-1];
    if k < |Doings(init, call)| {
      j := DoingIsStep(init, call, k);
    } else {
      j := |steps| - 1;
    }
  }

  /** The value a run stores was returned earlier in the run by a call of the target with the run's arguments. */
  lemma StoredWasReturned(m: Policies, observers: nat, t: seq<Event>, r: Outcome, args: seq<Value>, i: nat)
      returns (x: nat)
    requires ObservedRun(m, observers, t, r, args) && i < |t| && t[i].CachePut?
    ensures x < i && Gives(t[x], t[i].key, t[i].value)
  {
    hide ObservedRun;
    StoreFollowsSuccess(m, observers, t, r, args, i);
    EachCallHasItsTransaction(m, observers, t, r, args);
    x :| 0 <= x < |t[..i]| && t[..i][x].Target? && t[..i][x].outcome.Success? && t[..i][x].value == t[i].value;
    assert OwnCall(m, args, t, x);
  }

  lemma StoreIsGiven(m: Policies, args: nat -> seq<Value>, steps: seq<Step>, caches: seq<map<Key, Value>>, i: nat)
    requires Interleaves(m, args, steps, caches) && i < |steps| && steps[i].event.CachePut?
    ensures Given(steps, i, steps[i].event.key, steps[i].event.value)
  {
    hide ObservedRun;
    var call, done := steps[i].call, Doings(steps[..i], steps[i].call);
    assert steps[..i+1][..i] == steps[..i];
    assert Doings(steps[..i+1], call) == done + [steps[i].event];
    DoingsGrow(steps, i + 1, call);
    var observers, t, r :| ObservedRun(m, observers, t, r, args(call)) && Doings(steps, call) <= t;
    assert t[|done|] == steps[i].event;
    var x := StoredWasReturned(m, observers, t, r, args(call), |done|);
    assert done[x] == t[x];
    var j := DoingIsStep(steps[..i], call, x);
    assert steps[j] == steps[..i][j];
  }

  lemma {:induction false} SharedCacheIsGrounded(m: Policies, args: nat -> seq<Value>, steps: seq<Step>,
                                                 caches: seq<map<Key, Value>>, i: nat)
    requires Interleaves(m, args, steps, caches) && i <= |steps|
    ensures forall key :: key in caches[i] ==> Given(steps, i, key, caches[i][key])
  {
    hide BeginsRun;
    if i > 0 {
      SharedCacheIsGrounded(m, args, steps, caches, i - 1);
      assert CacheStep(caches[i-1], steps[i-1].event, caches[i]);
      forall key | key in caches[i] ensures Given(steps, i, key, caches[i][key]) {
        if key in caches[i-1] && caches[i][key] == caches[i-1][key] {
          assert Given(steps, i - 1, key, caches[i][key]);
        } else {
          StoreIsGiven(m, args, steps, caches, i - 1);
        }
      }
    }
  }

  /**
   * However calls overlap on one cache, a hit repeats what the target returned earlier for the same cached
   * arguments.
   */
  lemma OverlappingHitsRepeatTheTarget(m: Policies, args: nat -> seq<Value>, steps: seq<Step>,
                                       caches: seq<map<Key, Value>>, i: nat)
    requires Interleaves(m, args, steps, caches) && i < |steps| && steps[i].event.CacheGet?
    requires steps[i].event.answer.Hit?
    ensures Given(steps, i, steps[i].event.key, steps[i].event.answer.value)
  {
    hide BeginsRun;
    SharedCacheIsGrounded(m, args, steps, caches, i);
    assert CacheStep(caches[i], steps[i].event, caches[i+1]);
  }

  /** Observers finish at most once each, in the reverse of the order they began in, all with the same outcome. */
  lemma {:induction false} ObserversFinishInReverse(begins: seq<Event>, outcome: Outcome)
    requires forall i :: 0 <= i < |begins| ==> begins[i].ObserverBegin? && begins[i].i == i
    ensures var f := FinishesOf(begins, outcome);
            && (forall i :: 0 <= i < |f| ==>
                  f[i].ObserverFinish? && f[i].outcome == outcome && f[i].i < |begins| && begins[f[i].i].finishes)
            && (forall i, j :: 0 <= i < j < |f| ==> f[i].i > f[j].i)
            && (forall k :: 0 <= k < |begins| && begins[k].finishes ==> ObserverFinish(k, outcome) in f)
  {
    if begins != [] {
      var rest := begins[..|begins|-1];
      ObserversFinishInReverse(rest, outcome);
      var g := FinishesOf(rest, outcome);
      var f := FinishesOf(begins, outcome);
      if begins[|begins|-1].finishes {
        assert f == [ObserverFinish(|begins| - 1, outcome)] + g;
      }
    }
  }
}
