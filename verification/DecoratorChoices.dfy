/**
 * That a run of a generated decorator does what the runtime chose, moment by moment
 * (compiler/generate/policy_render.go).
 */
module DecoratorChoices {
  import opened Catalog
  import opened Decorator

  // ----- What the runtime decides ----------------------------------------------------------------

  /** The record made at moment t is what the runtime chose then, given the cache the run began with. */
  ghost predicate Chosen(c: Choices, cache: map<Key, Value>, t: nat, e: Event) {
    match e
    case Authorize(allowed) => allowed == c.allowed(t)
    case CacheGet(key, answer) =>
      (match answer
       case Unreadable => c.unreadable(t)
       case Hit(value) => !c.unreadable(t) && !c.expired(t) && key in cache && cache[key] == value
       case Miss => !c.unreadable(t) && (key !in cache || c.expired(t)))
    case CachePut(_, _, ok) => ok <==> !c.unwritable(t)
    case Attempt(_) => !c.cancelled(t)
    case Abandoned(_) => c.cancelled(t)
    case ObserverBegin(_, finishes) => finishes == c.finishes(t)
    case TransactionBegin(ok) => ok == c.begun(t)
    case Target(_, value, outcome) =>
      value == c.target(t).0
      && (outcome.Success? <==> c.target(t).1.Success?) && (outcome.Panic? <==> c.target(t).1.Panic?)
    case _ => true
  }

  /** A transaction is committed exactly when its call succeeded and the commit does. */
  ghost predicate CommitChosen(c: Choices, base: nat, t: seq<Event>, i: int)
    requires 0 <= i < |t|
  {
    t[i].TransactionEnd? ==>
      i > 0 && t[i-1].Target? && (t[i].committed <==> t[i-1].outcome.Success? && c.commits(base + i))
  }

  predicate GoesOn(t: seq<Event>, n: nat) { t != [] && (t[0] == Attempt(n) || t[0] == Abandoned(n)) }

  /** Another attempt is begun, or found cancelled, exactly when the last failed, one is left and the policy says so. */
  ghost predicate RetryChosen(m: Policies, c: Choices, base: nat, t: seq<Event>, i: int)
    requires 0 <= i < |t|
  {
    t[i].AttemptEnd? ==>
      m.retry.Some?
      && (GoesOn(t[i+1..], t[i].n + 1) <==>
          t[i].outcome.Error? && t[i].n < m.retry.value && c.again(base + i + 1))
  }

  ghost predicate ObeysAt(m: Policies, c: Choices, cache: map<Key, Value>, base: nat, t: seq<Event>, i: int)
    requires 0 <= i < |t|
  {
    Chosen(c, cache, base + i, t[i]) && CommitChosen(c, base, t, i) && RetryChosen(m, c, base, t, i)
  }

  /** Everything recorded from moment `base` on is what the runtime chose. */
  ghost predicate Obeys(m: Policies, c: Choices, cache: map<Key, Value>, base: nat, t: seq<Event>) {
    forall i :: 0 <= i < |t| ==> ObeysAt(m, c, cache, base, t, i)
  }

  ghost predicate Obeyed(m: Policies, c: Choices, w: World, w': World) {
    Extends(w, w') && Obeys(m, c, w.cache, |w.trace|, New(w, w'))
  }

  /** The cache after a run: unchanged, or with the one value stored, and without what was evicted then. */
  ghost predicate CacheFollows(c: Choices, w: World, w': World) {
    Extends(w, w') && Stores(c, w.cache, |w.trace|, New(w, w'), w'.cache)
  }

  predicate Stored(e: Event) { e.CachePut? && e.ok }

  ghost predicate Stores(c: Choices, before: map<Key, Value>, base: nat, t: seq<Event>, after: map<Key, Value>) {
    && (forall i :: 0 <= i < |t| && Stored(t[i]) ==> after == (before - c.evicted(base + i))[t[i].key := t[i].value])
    && ((forall i :: 0 <= i < |t| ==> !Stored(t[i])) ==> after == before)
  }

  // ----- Putting traces together -----------------------------------------------------------------

  lemma ObeysOne(m: Policies, c: Choices, cache: map<Key, Value>, base: nat, e: Event)
    requires Chosen(c, cache, base, e) && !e.TransactionEnd? && !e.AttemptEnd?
    ensures Obeys(m, c, cache, base, [e])
  {
  }

  predicate Seam(a: seq<Event>, b: seq<Event>) {
    a == [] || b == [] || !a[|a|-1].AttemptEnd? || !(b[0].Attempt? || b[0].Abandoned?)
  }

  lemma ObeysAppend(m: Policies, c: Choices, cache: map<Key, Value>, base: nat, a: seq<Event>, b: seq<Event>)
    requires Obeys(m, c, cache, base, a) && Obeys(m, c, cache, base + |a|, b) && Seam(a, b)
    ensures Obeys(m, c, cache, base, a + b)
  {
    hide Chosen;
    var t := a + b;
    forall i | 0 <= i < |t| ensures ObeysAt(m, c, cache, base, t, i) {
      if i < |a| {
        assert ObeysAt(m, c, cache, base, a, i) && t[i] == a[i] && (i > 0 ==> t[i-1] == a[i-1]);
        assert t[i+1..] == a[i+1..] + b;
      } else {
        var j := i - |a|;
        assert ObeysAt(m, c, cache, base + |a|, b, j) && t[i] == b[j] && (j > 0 ==> t[i-1] == b[j-1]);
        assert t[i+1..] == b[j+1..];
      }
    }
  }

  lemma ObeyedChain(m: Policies, c: Choices, w: World, x: World, y: World)
    requires Obeyed(m, c, w, x) && Obeyed(m, c, x, y) && x.cache == w.cache && Seam(New(w, x), New(x, y))
    ensures Obeyed(m, c, w, y) && New(w, y) == New(w, x) + New(x, y)
  {
    hide Obeys;
    NewChains(w, x, y);
    ObeysAppend(m, c, w.cache, |w.trace|, New(w, x), New(x, y));
  }

  lemma ObeyedLog(m: Policies, c: Choices, w: World, e: Event)
    requires Chosen(c, w.cache, |w.trace|, e) && !e.TransactionEnd? && !e.AttemptEnd?
    ensures Obeyed(m, c, w, w.Log(e)) && New(w, w.Log(e)) == [e]
  {
    Logged(w, e);
    ObeysOne(m, c, w.cache, |w.trace|, e);
  }

  // ----- Layer by layer --------------------------------------------------------------------------

  lemma TargetObeys(m: Policies, env: map<string, Closure>, name: string, c: Choices, args: seq<Value>, w: World,
                    fuel: nat)
    requires Stands(m, env, name, TARGET) && fuel > 0
    ensures Obeyed(m, c, w, Invoke(fuel, env, name, c, args, w).0)
  {
    var (w', r) := Invoke(fuel, env, name, c, args, w);
    var (value, said) := c.target(w.Clock());
    assert New(w, w') == [Target(args, value, Answered(said))];
    ObeysOne(m, c, w.cache, |w.trace|, New(w, w')[0]);
  }

  lemma {:induction false} ObserversObey(m: Policies, c: Choices, w: World, from: nat)
    requires from <= c.observers
    ensures Obeyed(m, c, w, BeginObservers(c, w, from))
    decreases c.observers - from
  {
    hide Obeyed;
    if from < c.observers {
      var begin := ObserverBegin(from, c.finishes(w.Clock()));
      ObeyedLog(m, c, w, begin);
      ObserversObey(m, c, w.Log(begin), from + 1);
      Obedient(m, c, w.Log(begin), BeginObservers(c, w.Log(begin), from + 1));
      ObeyedChain(m, c, w, w.Log(begin), BeginObservers(c, w.Log(begin), from + 1));
    } else {
      NothingObeys(m, c, w);
    }
  }

  lemma Obedient(m: Policies, c: Choices, w: World, w': World)
    requires Obeyed(m, c, w, w')
    ensures Extends(w, w')
  {
  }

  lemma NothingObeys(m: Policies, c: Choices, w: World)
    ensures Obeyed(m, c, w, w)
  {
  }

  lemma FinishesObey(m: Policies, c: Choices, w: World, begins: seq<Event>, r: Outcome)
    ensures Obeyed(m, c, w, w.(trace := w.trace + FinishesOf(begins, r)))
    ensures New(w, w.(trace := w.trace + FinishesOf(begins, r))) == FinishesOf(begins, r)
    ensures FinishesOf(begins, r) != [] ==> FinishesOf(begins, r)[0].ObserverFinish?
  {
    hide FinishesOf;
    OnlyFinishes(begins, r);
    var t := FinishesOf(begins, r);
    assert forall i :: 0 <= i < |t| ==> t[i] in t;
  }

  lemma CallObeys(m: Policies, c: Choices, w: World, called: World, args: seq<Value>, inner: Outcome, committed: bool)
    requires Obeyed(m, c, w, called) && called.cache == w.cache && TargetRun(New(w, called), inner, args)
    requires committed <==> inner.Success? && c.commits(called.Clock())
    ensures Obeyed(m, c, w, called.Log(TransactionEnd(committed)))
    ensures New(w, called.Log(TransactionEnd(committed))) == New(w, called) + [TransactionEnd(committed)]
  {
    var end := TransactionEnd(committed);
    var t := New(w, called) + [end];
    Logged(called, end);
    NewChains(w, called, called.Log(end));
    assert ObeysAt(m, c, w.cache, |w.trace|, New(w, called), 0);
    assert ObeysAt(m, c, w.cache, |w.trace|, t, 0) && ObeysAt(m, c, w.cache, |w.trace|, t, 1);
  }

  lemma TransactsObeys(m: Policies, env: map<string, Closure>, c: Choices, args: seq<Value>, w: World, fuel: nat)
    requires m.transaction && Stands(m, env, "transactionNext", TARGET) && fuel > 1
    ensures Obeyed(m, c, w, Transacts(fuel, env, "transactionNext", c, args, w).0)
  {
    hide Invoke, FinishesOf, BeginObservers, TargetRun, Stands, Obeyed, LastReturned;
    var (w', r) := Transacts(fuel, env, "transactionNext", c, args, w);
    var w1 := BeginObservers(c, w, 0);
    ObserversBegin(c, w, 0);
    ObserversObey(m, c, w, 0);
    var begins, ok := New(w, w1), c.begun(w1.Clock());
    var w2 := w1.Log(TransactionBegin(ok));
    ObeyedLog(m, c, w1, TransactionBegin(ok));
    ObeyedChain(m, c, w, w1, w2);
    var before := w2;
    if ok {
      var (w3, inner) := Invoke(fuel - 1, env, "transactionNext", c, args, w2);
      TargetLayer(m, env, "transactionNext", c, args, w2, fuel - 1);
      TargetObeys(m, env, "transactionNext", c, args, w2, fuel - 1);
      var committed := inner.Success? && c.commits(w3.Clock());
      before := w3.Log(TransactionEnd(committed));
      CallObeys(m, c, w2, w3, args, inner, committed);
      Obedient(m, c, w2, before);
      ObeyedChain(m, c, w, w2, before);
    }
    FinishesObey(m, c, before, begins, r);
    Obedient(m, c, w, before);
    Obedient(m, c, before, w');
    ObeyedChain(m, c, w, before, w');
  }

  lemma TransactionObeys(m: Policies, env: map<string, Closure>, name: string, c: Choices, args: seq<Value>, w: World,
                         fuel: nat)
    requires Wired(m, env, OBSERVATION) && Stands(m, env, name, TRANSACTION) && fuel > 1
    ensures Obeyed(m, c, w, Invoke(fuel, env, name, c, args, w).0)
  {
    hide Obeyed;
    if m.transaction {
      TransactsObeys(m, env, c, args, w, fuel);
    } else {
      TargetObeys(m, env, name, c, args, w, fuel);
    }
  }

  /** One attempt and what follows it. */
  lemma AttemptObeys(m: Policies, c: Choices, cache: map<Key, Value>, base: nat, n: nat, body: seq<Event>,
                     inner: Outcome, rest: seq<Event>)
    requires !c.cancelled(base) && Obeys(m, c, cache, base + 1, body)
    requires forall i :: 0 <= i < |body| ==> !body[i].AttemptEnd?
    requires Obeys(m, c, cache, base + |body| + 2, rest) && m.retry.Some?
    requires GoesOn(rest, n + 1) <==> inner.Error? && n < m.retry.value && c.again(base + |body| + 2)
    ensures Obeys(m, c, cache, base, [Attempt(n)] + body + [AttemptEnd(n, inner)] + rest)
  {
    hide Obeys;
    var head, last := [Attempt(n)] + body, AttemptEnd(n, inner);
    ObeysOne(m, c, cache, base, Attempt(n));
    ObeysAppend(m, c, cache, base, [Attempt(n)], body);
    ObeysEnd(m, c, cache, base + |head|, last, rest);
    ObeysAppend(m, c, cache, base, head, [last] + rest);
    assert head + ([last] + rest) == head + [last] + rest;
  }

  lemma ObeysEnd(m: Policies, c: Choices, cache: map<Key, Value>, base: nat, last: Event, rest: seq<Event>)
    requires last.AttemptEnd? && Obeys(m, c, cache, base + 1, rest) && m.retry.Some?
    requires GoesOn(rest, last.n + 1) <==> last.outcome.Error? && last.n < m.retry.value && c.again(base + 1)
    ensures Obeys(m, c, cache, base, [last] + rest)
  {
    hide Chosen;
    var t := [last] + rest;
    forall i | 0 <= i < |t| ensures ObeysAt(m, c, cache, base, t, i) {
      if i > 0 {
        assert ObeysAt(m, c, cache, base + 1, rest, i - 1) && (i > 1 ==> t[i-1] == rest[i-2]);
        assert t[i+1..] == rest[i..];
      } else {
        EndIsChosen(c, cache, base, last);
        assert t[1..] == rest;
      }
    }
  }

  lemma EndIsChosen(c: Choices, cache: map<Key, Value>, t: nat, e: Event)
    requires e.AttemptEnd?
    ensures Chosen(c, cache, t, e)
  {
  }

  lemma {:induction false} AttemptsObey(m: Policies, env: map<string, Closure>, c: Choices, args: seq<Value>,
                                        w: World, fuel: nat, n: nat)
    requires Wired(m, env, OBSERVATION) && Stands(m, env, "retryNext", TRANSACTION) && fuel > 2 && m.retry.Some?
    ensures Obeyed(m, c, w, Retries(fuel, env, "retryNext", c, args, w, n, m.retry.value).0)
    decreases m.retry.value - n
  {
    hide Invoke, LastReturned, TransactionRun, AttemptsRun, Wired, Stands, Obeys;
    var max := m.retry.value;
    if !c.cancelled(w.Clock()) {
      var begun := w.Log(Attempt(n));
      Logged(w, Attempt(n));
      var (tried, inner) := Invoke(fuel - 1, env, "retryNext", c, args, begun);
      TransactionLayer(m, env, "retryNext", c, args, begun, fuel - 1);
      TransactionObeys(m, env, "retryNext", c, args, begun, fuel - 1);
      var body := New(begun, tried);
      TransactionHasNoEnd(m, c.observers, body, inner, args);
      var ended := tried.Log(AttemptEnd(n, inner));
      Logged(tried, AttemptEnd(n, inner));
      NewChains(w, begun, tried);
      NewChains(w, tried, ended);
      assert New(w, ended) == [Attempt(n)] + body + [AttemptEnd(n, inner)];
      if inner.Error? && n < max && c.again(ended.Clock()) {
        var (w', r) := Retries(fuel, env, "retryNext", c, args, ended, n + 1, max);
        AttemptsLayer(m, env, c, args, ended, fuel, n + 1, max);
        AttemptsObey(m, env, c, args, ended, fuel, n + 1);
        NewChains(w, ended, w');
        AttemptsBegin(m, c.observers, New(ended, w'), r, args, n + 1, max);
        AttemptObeys(m, c, w.cache, |w.trace|, n, body, inner, New(ended, w'));
      } else {
        NothingObeyed(m, c, w.cache, |w.trace| + |body| + 2);
        AttemptObeys(m, c, w.cache, |w.trace|, n, body, inner, []);
        assert New(w, ended) + [] == New(w, ended);
      }
    } else {
      ObeyedLog(m, c, w, Abandoned(n));
    }
  }

  lemma NothingObeyed(m: Policies, c: Choices, cache: map<Key, Value>, base: nat)
    ensures Obeys(m, c, cache, base, [])
  {
  }

  lemma AttemptsBegin(m: Policies, observers: nat, t: seq<Event>, r: Outcome, args: seq<Value>, n: nat, max: nat)
    requires AttemptsRun(m, observers, t, r, args, n, max)
    ensures GoesOn(t, n)
  {
  }

  lemma RetryObeys(m: Policies, env: map<string, Closure>, name: string, c: Choices, args: seq<Value>, w: World,
                   fuel: nat)
    requires Wired(m, env, OBSERVATION) && Stands(m, env, name, RETRY) && fuel > 2
    ensures Obeyed(m, c, w, Invoke(fuel, env, name, c, args, w).0)
  {
    hide Obeyed;
    if m.retry.Some? {
      AttemptsObey(m, env, c, args, w, fuel, 1);
    } else {
      TransactionObeys(m, env, name, c, args, w, fuel);
    }
  }

  lemma CacheObeys(m: Policies, env: map<string, Closure>, name: string, c: Choices, args: seq<Value>, w: World,
                   fuel: nat)
    requires Wired(m, env, OBSERVATION) && Stands(m, env, name, CACHE) && fuel > 3
    ensures var w' := Invoke(fuel, env, name, c, args, w).0; Obeyed(m, c, w, w') && CacheFollows(c, w, w')
  {
    if !m.cache {
      hide LastReturned, RetryRun, Obeyed;
      var (w', r) := Invoke(fuel, env, name, c, args, w);
      RetryLayer(m, env, name, c, args, w, fuel);
      RetryIsWork(m, c.observers, New(w, w'), r, args);
      RetryObeys(m, env, name, c, args, w, fuel);
    } else {
      LookUpObeys(m, env, c, args, w, fuel);
    }
  }

  lemma LookUpObeys(m: Policies, env: map<string, Closure>, c: Choices, args: seq<Value>, w: World, fuel: nat)
    requires m.cache && Wired(m, env, OBSERVATION) && Stands(m, env, "cacheNext", RETRY) && fuel > 3
    ensures var w' := LooksUp(fuel, env, "cacheNext", c, args, w).0; Obeyed(m, c, w, w') && CacheFollows(c, w, w')
  {
    hide LastReturned, RetryRun, Invoke, Wired, Stands, Obeyed, IsWork, CacheFollows, CacheKey;
    var (w', r) := LooksUp(fuel, env, "cacheNext", c, args, w);
    var key := CacheKey(args);
    if c.unreadable(w.Clock()) || (key in w.cache && !c.expired(w.Clock())) {
      OneLookUpObeys(m, env, c, args, w, fuel);
    } else {
      var get := CacheGet(key, Miss);
      var missed := w.Log(get);
      ObeyedLog(m, c, w, get);
      var (done, inner) := Invoke(fuel - 1, env, "cacheNext", c, args, missed);
      RetryLayer(m, env, "cacheNext", c, args, missed, fuel - 1);
      RetryObeys(m, env, "cacheNext", c, args, missed, fuel - 1);
      var body := New(missed, done);
      RetryIsWork(m, c.observers, body, inner, args);
      ObeyedChain(m, c, w, missed, done);
      NoStore(m, args, get, body);
      if inner.Success? {
        Obedient(m, c, w, done);
        StoreObeys(m, c, w, done, [get] + body, key, w');
      } else {
        UnchangedFollows(c, w, w');
      }
    }
  }

  lemma OneLookUpObeys(m: Policies, env: map<string, Closure>, c: Choices, args: seq<Value>, w: World, fuel: nat)
    requires fuel > 0 && (c.unreadable(w.Clock()) || (CacheKey(args) in w.cache && !c.expired(w.Clock())))
    ensures var w' := LooksUp(fuel, env, "cacheNext", c, args, w).0; Obeyed(m, c, w, w') && CacheFollows(c, w, w')
  {
    hide Invoke, Obeyed;
    var (w', r) := LooksUp(fuel, env, "cacheNext", c, args, w);
    var get := CacheGet(CacheKey(args), if c.unreadable(w.Clock()) then Unreadable else Hit(w.cache[CacheKey(args)]));
    ObeyedLog(m, c, w, get);
    SameTrace(m, c, w, w.Log(get), w');
  }

  lemma SameTrace(m: Policies, c: Choices, w: World, x: World, y: World)
    requires Obeyed(m, c, w, x) && y.trace == x.trace
    ensures Obeyed(m, c, w, y) && New(w, y) == New(w, x)
  {
  }

  lemma NoStore(m: Policies, args: seq<Value>, get: Event, body: seq<Event>)
    requires get.CacheGet? && IsWork(m, args, body)
    ensures forall i :: 0 <= i < |[get] + body| ==> !([get] + body)[i].CachePut?
  {
    var t := [get] + body;
    forall i | 0 <= i < |t| ensures !t[i].CachePut? {
      if i > 0 { assert t[i] == body[i-1] && BelowCache(body[i-1]); }
    }
  }

  /** After a run without a store, one is tried. */
  lemma StoreObeys(m: Policies, c: Choices, w: World, done: World, body: seq<Event>, key: Key, w': World)
    requires Obeyed(m, c, w, done) && done.cache == w.cache && New(w, done) == body
    requires forall i :: 0 <= i < |body| ==> !body[i].CachePut?
    requires w' == if c.unwritable(done.Clock()) then done.Log(CachePut(key, done.result, false))
                   else done.Log(CachePut(key, done.result, true)).(
                          cache := (done.cache - c.evicted(done.Clock()))[key := done.result])
    ensures Obeyed(m, c, w, w') && CacheFollows(c, w, w')
  {
    hide Obeyed, CacheFollows;
    var put := CachePut(key, done.result, !c.unwritable(done.Clock()));
    ObeyedLog(m, c, done, put);
    Obedient(m, c, w, done);
    ObeyedChain(m, c, w, done, done.Log(put));
    SameTrace(m, c, w, done.Log(put), w');
    Obedient(m, c, w, w');
    OneStore(c, w, w', body, put);
  }

  lemma OneStore(c: Choices, w: World, w': World, before: seq<Event>, put: Event)
    requires Extends(w, w') && New(w, w') == before + [put] && put.CachePut?
    requires forall i :: 0 <= i < |before| ==> !before[i].CachePut?
    requires w'.cache == if put.ok then (w.cache - c.evicted(|w.trace| + |before|))[put.key := put.value] else w.cache
    ensures CacheFollows(c, w, w')
  {
    assert New(w, w')[|before|] == put;
  }

  lemma UnchangedFollows(c: Choices, w: World, w': World)
    requires Extends(w, w') && w'.cache == w.cache
    requires forall i :: 0 <= i < |New(w, w')| ==> !New(w, w')[i].CachePut?
    ensures CacheFollows(c, w, w')
  {
  }

  /** Marks around a run change neither what it obeys nor what it stores. */
  lemma ObeysWrapped(m: Policies, c: Choices, w: World, first: Event, inner: World, last: Option<Event>, w': World)
    requires Obeyed(m, c, w.Log(first), inner) && CacheFollows(c, w.Log(first), inner)
    requires w' == if last.Some? then inner.Log(last.value) else inner
    requires first.ObserveBegin? || first == Authorize(c.allowed(w.Clock()))
    requires last.Some? ==> last.value.ObserveEnd?
    ensures Obeyed(m, c, w, w') && CacheFollows(c, w, w')
  {
    hide Obeys;
    ObeyedLog(m, c, w, first);
    ObeyedChain(m, c, w, w.Log(first), inner);
    FollowsWrapped(c, w, first, inner, last, w');
    if last.Some? {
      Logged(inner, last.value);
      ObeysOne(m, c, w.cache, |inner.trace|, last.value);
      NewChains(w, inner, w');
      ObeysAppend(m, c, w.cache, |w.trace|, New(w, inner), [last.value]);
    }
  }

  lemma FollowsWrapped(c: Choices, w: World, first: Event, inner: World, last: Option<Event>, w': World)
    requires CacheFollows(c, w.Log(first), inner) && !first.CachePut? && (last.Some? ==> !last.value.CachePut?)
    requires w' == if last.Some? then inner.Log(last.value) else inner
    ensures CacheFollows(c, w, w')
  {
    hide Stores;
    Logged(w, first);
    var body, tail := New(w.Log(first), inner), if last.Some? then [last.value] else [];
    NewChains(w, w.Log(first), inner);
    if last.Some? {
      Logged(inner, last.value);
      NewChains(w, inner, w');
    }
    assert New(w, w') == [first] + body + tail;
    StoresWrapped(c, w.cache, |w.trace|, first, body, tail, inner.cache);
  }

  lemma StoresWrapped(c: Choices, before: map<Key, Value>, base: nat, first: Event, body: seq<Event>, tail: seq<Event>,
                      after: map<Key, Value>)
    requires Stores(c, before, base + 1, body, after) && !Stored(first)
    requires forall i :: 0 <= i < |tail| ==> !Stored(tail[i])
    ensures Stores(c, before, base, [first] + body + tail, after)
  {
    hide Stored;
    var t := [first] + body + tail;
    forall i | 0 <= i < |t| && Stored(t[i]) ensures 1 <= i <= |body| && t[i] == body[i-1] {}
    forall i | 0 <= i < |body| ensures body[i] == t[i+1] {}
  }

  lemma AuthorizationObeys(m: Policies, env: map<string, Closure>, name: string, c: Choices, args: seq<Value>,
                           w: World, fuel: nat)
    requires Wired(m, env, OBSERVATION) && Stands(m, env, name, AUTHORIZATION) && fuel > 4
    ensures var w' := Invoke(fuel, env, name, c, args, w).0; Obeyed(m, c, w, w') && CacheFollows(c, w, w')
  {
    hide Obeyed, CacheFollows;
    var (w', r) := Invoke(fuel, env, name, c, args, w);
    if !m.authorization {
      CacheObeys(m, env, name, c, args, w, fuel);
    } else if c.allowed(w.Clock()) {
      CacheObeys(m, env, "authorizationNext", c, args, w.Log(Authorize(true)), fuel - 1);
      ObeysWrapped(m, c, w, Authorize(true), w', None, w');
    } else {
      ObeyedLog(m, c, w, Authorize(false));
      Obedient(m, c, w, w');
      UnchangedFollows(c, w, w');
    }
  }

  /** From the outermost literal down, a run does what the runtime chooses and stores what it logs as stored. */
  lemma RunObeys(m: Policies, env: map<string, Closure>, name: string, c: Choices, args: seq<Value>, w: World,
                 fuel: nat)
    requires Wired(m, env, OBSERVATION) && Stands(m, env, name, OBSERVATION) && fuel > 5
    ensures var w' := Invoke(fuel, env, name, c, args, w).0; Obeyed(m, c, w, w') && CacheFollows(c, w, w')
  {
    hide Obeyed, CacheFollows;
    var (w', r) := Invoke(fuel, env, name, c, args, w);
    if !m.observation {
      AuthorizationObeys(m, env, name, c, args, w, fuel);
    } else {
      var (inner, _) := Invoke(fuel - 1, env, "observationNext", c, args, w.Log(ObserveBegin));
      AuthorizationObeys(m, env, "observationNext", c, args, w.Log(ObserveBegin), fuel - 1);
      ObeysWrapped(m, c, w, ObserveBegin, inner, Some(ObserveEnd(r)), w');
    }
  }
}
