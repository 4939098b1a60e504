/** How often the constructor body declares a name (compiler/generate/provider_render.go, policy_render.go). */
module Declarations {
  import opened Catalog
  import opened Digraph
  import opened ConstructorRendering

  /** No name is declared by two statements. */
  ghost predicate DeclaredOnce(body: seq<Statement>) {
    forall i, j :: 0 <= i < j < |body| ==> Declares(body[i]) !! Declares(body[j])
  }

  lemma InDeclared(body: seq<Statement>, n: string)
    ensures n in Declared(body) <==> exists i :: 0 <= i < |body| && n in Declares(body[i])
  {
    if i :| 0 <= i < |body| && n in Declares(body[i]) { assert body[i] in body; }
    if n in Declared(body) {
      var s :| s in body && n in Declares(s);
      var i :| 0 <= i < |body| && body[i] == s;
    }
  }

  lemma OnceAppend(a: seq<Statement>, b: seq<Statement>)
    ensures DeclaredOnce(a + b) <==> DeclaredOnce(a) && DeclaredOnce(b) && Declared(a) !! Declared(b)
  {
    hide Declares, Declared;
    var t := a + b;
    if DeclaredOnce(a) && DeclaredOnce(b) && Declared(a) !! Declared(b) {
      forall i, j | 0 <= i < j < |t| ensures Declares(t[i]) !! Declares(t[j]) {
        forall n | n in Declares(t[i]) ensures n !in Declares(t[j]) {
          InDeclared(a, n);
          InDeclared(b, n);
          if j < |a| {
            assert Declares(a[i]) !! Declares(a[j]);
          } else if i >= |a| {
            assert Declares(b[i-|a|]) !! Declares(b[j-|a|]);
          }
        }
      }
    }
    if DeclaredOnce(t) { OncePart(a, b); }
  }

  lemma OncePart(a: seq<Statement>, b: seq<Statement>)
    requires DeclaredOnce(a + b)
    ensures DeclaredOnce(a) && DeclaredOnce(b) && Declared(a) !! Declared(b)
  {
    hide Declares, Declared;
    var t := a + b;
    forall i, j | 0 <= i < j < |a| ensures Declares(a[i]) !! Declares(a[j]) { assert t[i] == a[i] && t[j] == a[j]; }
    forall i, j | 0 <= i < j < |b| ensures Declares(b[i]) !! Declares(b[j]) {
      assert t[|a| + i] == b[i] && t[|a| + j] == b[j];
    }
    forall n | n in Declared(a) ensures n !in Declared(b) {
      InDeclared(a, n);
      InDeclared(b, n);
      var i :| 0 <= i < |a| && n in Declares(a[i]);
      forall j | 0 <= j < |b| ensures n !in Declares(b[j]) { assert t[i] == a[i] && t[|a| + j] == b[j]; }
    }
  }

  // ----- What a block declares -------------------------------------------------------------------

  /** What the names of a provider's helper variables end in. */
  function Suffixes(item: Provider): set<string> {
    if item.scope == Prototype then {"Factory"}
    else if item.scope != Singleton then {"Factory", "Scope"}
    else
      match item.source
      case Configuration => {}
      case Event => {"Topic"}
      case Logging => {}
      case _ => {"Cleanup"}
  }

  function Helpers(c: Context, item: Provider): set<string> {
    set s | s in Suffixes(item) :: LocalOf(c, item.symbolID) + s
  }

  lemma LonghandHelpers(v: string)
    ensures v + "Factory" != v && v + "Scope" != v && v + "Topic" != v && v + "Cleanup" != v
    ensures v + "Factory" != v + "Scope"
  {
    assert |v + "Factory"| == |v| + 7 && |v + "Scope"| == |v| + 5;
    assert |v + "Topic"| == |v| + 5 && |v + "Cleanup"| == |v| + 7;
  }

  lemma TwoOnce(a: Statement, b: Statement)
    ensures DeclaredOnce([a, b]) <==> Declares(a) !! Declares(b)
    ensures Declared([a, b]) == Declares(a) + Declares(b)
  {
    hide Declares, Declared;
    var t := [a, b];
    if DeclaredOnce(t) { assert t[0] == a && t[1] == b; }
    forall n ensures n in Declared(t) <==> n in Declares(a) + Declares(b) {
      InDeclared(t, n);
      if n in Declares(a) { assert t[0] == a; }
      if n in Declares(b) { assert t[1] == b; }
    }
  }

  lemma KeepsOnce(body: seq<Statement>, n: string)
    ensures DeclaredOnce(body + [Keep(n)]) <==> DeclaredOnce(body)
    ensures Declared(body + [Keep(n)]) == Declared(body)
  {
    OnceAppend(body, [Keep(n)]);
    DeclaredAppend(body, [Keep(n)]);
    assert Declared([Keep(n)]) == {};
  }

  lemma ScopedAdapterOnce(c: Context, item: Provider)
    requires item.scope != Singleton
    ensures DeclaredOnce(ScopedAdapter(c, item))
    ensures Declared(ScopedAdapter(c, item)) == {LocalOf(c, item.symbolID)} + Helpers(c, item)
  {
    hide DeclaredOnce, Declared;
    var v := LocalOf(c, item.symbolID);
    LonghandHelpers(v);
    var factory := Factory(v + "Factory", ArgsFor(c, item.symbolID));
    if item.scope == Prototype {
      var body := [factory, NewProvider(v, v + "Factory")];
      TwoOnce(factory, NewProvider(v, v + "Factory"));
      KeepsOnce(body, v);
      assert ScopedAdapter(c, item) == body + [Keep(v)];
    } else {
      var scope := NewScope(v + "Scope", v + "Factory", item.scope == Session);
      var provider := ProviderOfScope(v, v + "Scope");
      TwoOnce(factory, scope);
      TwoOnce(provider, Keep(v));
      OnceAppend([factory, scope], [provider, Keep(v)]);
      DeclaredAppend([factory, scope], [provider, Keep(v)]);
      assert ScopedAdapter(c, item) == [factory, scope] + [provider, Keep(v)];
    }
  }

  lemma AdapterCallOnce(c: Context, item: Provider)
    ensures DeclaredOnce(AdapterCall(c, item))
    ensures Declared(AdapterCall(c, item)) == {LocalOf(c, item.symbolID), LocalOf(c, item.symbolID) + "Cleanup"}
  {
    hide DeclaredOnce, Declared;
    var id, v := item.symbolID, LocalOf(c, item.symbolID);
    var construct := Construct(v, v + "Cleanup", ArgsFor(c, id), id in c.meta.overridable);
    TwoOnce(construct, RegisterCleanup(v + "Cleanup"));
    KeepsOnce([construct, RegisterCleanup(v + "Cleanup")], v);
    assert AdapterCall(c, item) == [construct, RegisterCleanup(v + "Cleanup")] + [Keep(v)];
  }

  lemma EventProviderOnce(c: Context, item: Provider, listeners: seq<string>)
    ensures DeclaredOnce(EventProvider(c, item, listeners))
    ensures Declared(EventProvider(c, item, listeners))
            == {LocalOf(c, item.symbolID), LocalOf(c, item.symbolID) + "Topic"}
  {
    hide DeclaredOnce, Declared, ReceiversOf;
    var v := LocalOf(c, item.symbolID);
    LonghandHelpers(v);
    var topic := NewTopic(v + "Topic", ReceiversOf(c, listeners));
    TwoOnce(topic, Publish(v, v + "Topic"));
    KeepsOnce([topic, Publish(v, v + "Topic")], v);
    assert EventProvider(c, item, listeners) == [topic, Publish(v, v + "Topic")] + [Keep(v)];
  }

  lemma OwnOnce(c: Context, item: Provider)
    requires item.scope == Singleton && item.symbolID !in c.services
    ensures DeclaredOnce(Block(c, item)) && Declared(Block(c, item)) == {LocalOf(c, item.symbolID)} + Helpers(c, item)
  {
    hide DeclaredOnce, Declared, AdapterCall, EventProvider;
    var id, v := item.symbolID, LocalOf(c, item.symbolID);
    assert PolicyConstruction(c, item) == [];
    assert forall s: seq<Statement> :: s + [] == s;
    match item.source {
      case Configuration => TwoOnce(Bind(v), Keep(v));
      case Event => EventProviderOnce(c, item, if id in c.meta.topics then c.meta.topics[id] else []);
      case Logging => TwoOnce(UseLogger(v), Keep(v));
      case _ => AdapterCallOnce(c, item);
    }
  }

  /** A block declares its provider's two variables and its helpers, and repeats none but for the decorated one. */
  lemma BlockOnce(c: Context, item: Provider)
    requires Exposes(c, item)
    ensures Declared(Block(c, item)) == VariablesFor(c, item.symbolID) + Helpers(c, item)
    ensures DeclaredOnce(Block(c, item)) <==>
              (item.symbolID in c.services ==>
                 ExposedOf(c, item.symbolID) !in {LocalOf(c, item.symbolID)} + Helpers(c, item))
  {
    hide DeclaredOnce, Declared, Helpers, ScopedAdapter;
    var id := item.symbolID;
    if item.scope != Singleton {
      ScopedAdapterOnce(c, item);
    } else {
      var plain := c.(services := map[]);
      SplitBlock(c, item);
      OwnOnce(plain, item);
      assert Helpers(plain, item) == Helpers(c, item) by { SameHelpers(c, item); }
      var own, policy := Block(plain, item), PolicyConstruction(c, item);
      if id in c.services {
        PolicyOnce(c, item);
        OnceAppend(own, policy);
        DeclaredAppend(own, policy);
      } else {
        assert own + [] == own;
      }
    }
  }

  lemma SameHelpers(c: Context, item: Provider)
    ensures Helpers(c.(services := map[]), item) == Helpers(c, item)
  {
  }

  lemma SplitBlock(c: Context, item: Provider)
    requires item.scope == Singleton
    ensures Block(c, item) == Block(c.(services := map[]), item) + PolicyConstruction(c, item)
  {
    SameOwnStatements(c, item, Parameters(true));
  }

  lemma PolicyOnce(c: Context, item: Provider)
    requires item.symbolID in c.services
    ensures DeclaredOnce(PolicyConstruction(c, item))
    ensures Declared(PolicyConstruction(c, item)) == {ExposedOf(c, item.symbolID)}
  {
    hide DeclaredOnce, Declared;
    var policy := PolicyConstruction(c, item);
    TwoOnce(policy[0], policy[1]);
    assert policy == [policy[0], policy[1]];
  }

  // ----- The whole body --------------------------------------------------------------------------

  ghost predicate BlocksApart(c: Context, items: seq<Provider>) {
    forall i, j :: 0 <= i < j < |items| ==> Declared(Block(c, items[i])) !! Declared(Block(c, items[j]))
  }

  lemma {:induction false} InBody(c: Context, items: seq<Provider>, n: string)
    ensures n in Declared(Body(c, items)) <==> exists i :: 0 <= i < |items| && n in Declared(Block(c, items[i]))
  {
    hide Declared, Block;
    if items == [] {
      assert Declared([]) == {} by { NothingDeclared(); }
    } else {
      var init := items[..|items|-1];
      InBody(c, init, n);
      DeclaredAppend(Body(c, init), Block(c, items[|items|-1]));
      if i :| 0 <= i < |items| && n in Declared(Block(c, items[i])) { if i < |init| { assert init[i] == items[i]; } }
      if i :| 0 <= i < |init| && n in Declared(Block(c, init[i])) { assert items[i] == init[i]; }
    }
  }

  lemma NothingDeclared()
    ensures Declared([]) == {} && DeclaredOnce([])
  {
  }

  lemma {:induction false} BodyOnce(c: Context, items: seq<Provider>)
    ensures DeclaredOnce(Body(c, items)) <==>
              (forall i :: 0 <= i < |items| ==> DeclaredOnce(Block(c, items[i]))) && BlocksApart(c, items)
  {
    hide DeclaredOnce, Declared, Block;
    NothingDeclared();
    if items != [] {
      var k := |items| - 1;
      var init, last := items[..k], Block(c, items[k]);
      BodyOnce(c, init);
      OnceAppend(Body(c, init), last);
      assert forall i :: 0 <= i < k ==> init[i] == items[i];
      forall n ensures n in Declared(Body(c, init)) <==>
                         exists i :: 0 <= i < k && n in Declared(Block(c, init[i]))
      {
        InBody(c, init, n);
      }
      if DeclaredOnce(Body(c, items)) {
        forall i, j | 0 <= i < j < |items| ensures Declared(Block(c, items[i])) !! Declared(Block(c, items[j])) {
          if j == k { LastApart(c, init, i, last); } else { assert init[i] == items[i] && init[j] == items[j]; }
        }
      }
      if BlocksApart(c, items) {
        forall n | n in Declared(Body(c, init)) ensures n !in Declared(last) {
          var i :| 0 <= i < k && n in Declared(Block(c, init[i]));
          assert Declared(Block(c, items[i])) !! Declared(last);
        }
        forall i, j | 0 <= i < j < k ensures Declared(Block(c, init[i])) !! Declared(Block(c, init[j])) {
          assert init[i] == items[i] && init[j] == items[j];
        }
      }
    }
  }

  lemma LastApart(c: Context, init: seq<Provider>, i: nat, last: seq<Statement>)
    requires i < |init| && Declared(Body(c, init)) !! Declared(last)
    ensures Declared(Block(c, init[i])) !! Declared(last)
  {
    hide Declared, Block;
    forall n | n in Declared(Block(c, init[i])) ensures n !in Declared(last) { InBody(c, init, n); }
  }

  /** Every provider has variables of its own, and a decorated one has two. */
  ghost predicate VariablesApart(c: Context, items: seq<Provider>) {
    && (forall i, j :: 0 <= i < j < |items| ==>
          VariablesFor(c, items[i].symbolID) !! VariablesFor(c, items[j].symbolID))
    && (forall i :: 0 <= i < |items| && items[i].symbolID in c.services ==>
          ExposedOf(c, items[i].symbolID) != LocalOf(c, items[i].symbolID))
  }

  /** A variable is another provider's variable followed by Cleanup, Factory, Scope or Topic. */
  ghost predicate Meets(c: Context, variable: Provider, helper: Provider, suffix: string) {
    suffix in Suffixes(helper) && LocalOf(c, helper.symbolID) + suffix in VariablesFor(c, variable.symbolID)
  }

  ghost predicate SomeHelperMeets(c: Context, items: seq<Provider>) {
    exists i, j, suffix :: 0 <= i < |items| && 0 <= j < |items| && Meets(c, items[i], items[j], suffix)
  }

  /** Different suffixes never give one name. */
  lemma SuffixesTellApart(a: string, s: string, b: string, t: string)
    requires s in {"Cleanup", "Factory", "Scope", "Topic"} && t in {"Cleanup", "Factory", "Scope", "Topic"}
    requires a + s == b + t
    ensures s == t && a == b
  {
    var n := a + s;
    assert n[|n|-1] == s[|s|-1] == t[|t|-1];
    assert s == t;
    assert a == n[..|n|-|s|] && b == n[..|n|-|t|];
  }

  lemma SuffixesKnown(item: Provider)
    ensures Suffixes(item) <= {"Cleanup", "Factory", "Scope", "Topic"}
  {
  }

  lemma HelpersApart(c: Context, p: Provider, q: Provider)
    requires LocalOf(c, p.symbolID) != LocalOf(c, q.symbolID)
    ensures Helpers(c, p) !! Helpers(c, q)
  {
    hide Suffixes;
    SuffixesKnown(p);
    SuffixesKnown(q);
    forall s, t | s in Suffixes(p) && t in Suffixes(q)
      ensures LocalOf(c, p.symbolID) + s != LocalOf(c, q.symbolID) + t
    {
      if LocalOf(c, p.symbolID) + s == LocalOf(c, q.symbolID) + t {
        SuffixesTellApart(LocalOf(c, p.symbolID), s, LocalOf(c, q.symbolID), t);
      }
    }
  }

  /**
   * No name is declared twice in the body exactly when every provider has variables of its own and none of them is
   * a helper's name.
   */
  lemma DeclaredOnceIff(c: Context, items: seq<Provider>)
    requires forall i :: 0 <= i < |items| ==> Exposes(c, items[i])
    ensures DeclaredOnce(Body(c, items)) <==> VariablesApart(c, items) && !SomeHelperMeets(c, items)
  {
    hide DeclaredOnce, Declared, Block, Body, Exposes, Suffixes;
    BodyOnce(c, items);
    forall i | 0 <= i < |items|
      ensures Declared(Block(c, items[i])) == VariablesFor(c, items[i].symbolID) + Helpers(c, items[i])
      ensures DeclaredOnce(Block(c, items[i])) <==> OwnApart(c, items[i])
    {
      BlockOnce(c, items[i]);
    }
    if VariablesApart(c, items) && !SomeHelperMeets(c, items) {
      ApartWithoutMeeting(c, items);
    }
    if (forall i :: 0 <= i < |items| ==> OwnApart(c, items[i])) && BlocksApart(c, items) {
      NoMeetingWhenApart(c, items);
    }
  }

  ghost predicate OwnApart(c: Context, item: Provider) {
    item.symbolID in c.services ==> ExposedOf(c, item.symbolID) !in {LocalOf(c, item.symbolID)} + Helpers(c, item)
  }

  lemma ApartWithoutMeeting(c: Context, items: seq<Provider>)
    requires VariablesApart(c, items) && !SomeHelperMeets(c, items)
    requires forall i :: 0 <= i < |items| ==>
               Declared(Block(c, items[i])) == VariablesFor(c, items[i].symbolID) + Helpers(c, items[i])
    ensures BlocksApart(c, items) && forall i :: 0 <= i < |items| ==> OwnApart(c, items[i])
  {
    hide Declared, Block, Suffixes;
    forall i, j, n | 0 <= i < |items| && 0 <= j < |items| && n in Helpers(c, items[j])
      ensures n !in VariablesFor(c, items[i].symbolID)
    {
      var s :| s in Suffixes(items[j]) && n == LocalOf(c, items[j].symbolID) + s;
      assert !Meets(c, items[i], items[j], s);
    }
    forall i, j | 0 <= i < j < |items| ensures Declared(Block(c, items[i])) !! Declared(Block(c, items[j])) {
      assert LocalOf(c, items[i].symbolID) in VariablesFor(c, items[i].symbolID);
      assert LocalOf(c, items[j].symbolID) in VariablesFor(c, items[j].symbolID);
      HelpersApart(c, items[i], items[j]);
    }
  }

  lemma NoMeetingWhenApart(c: Context, items: seq<Provider>)
    requires BlocksApart(c, items) && forall i :: 0 <= i < |items| ==> OwnApart(c, items[i])
    requires forall i :: 0 <= i < |items| ==> Exposes(c, items[i])
    requires forall i :: 0 <= i < |items| ==>
               Declared(Block(c, items[i])) == VariablesFor(c, items[i].symbolID) + Helpers(c, items[i])
    ensures VariablesApart(c, items) && !SomeHelperMeets(c, items)
  {
    hide Declared, Block;
    forall i, j | 0 <= i < j < |items|
      ensures VariablesFor(c, items[i].symbolID) !! VariablesFor(c, items[j].symbolID)
    {
      assert Declared(Block(c, items[i])) !! Declared(Block(c, items[j]));
    }
    forall i, j, suffix | 0 <= i < |items| && 0 <= j < |items| ensures !Meets(c, items[i], items[j], suffix) {
      var n := LocalOf(c, items[j].symbolID) + suffix;
      if suffix in Suffixes(items[j]) {
        assert n in Helpers(c, items[j]);
        SuffixIsNotEmpty(items[j], suffix);
        if i < j {
          assert Declared(Block(c, items[i])) !! Declared(Block(c, items[j]));
        } else if j < i {
          assert Declared(Block(c, items[j])) !! Declared(Block(c, items[i]));
        } else {
          assert |n| > |LocalOf(c, items[j].symbolID)|;
        }
      }
    }
  }

  lemma SuffixIsNotEmpty(item: Provider, suffix: string)
    requires suffix in Suffixes(item)
    ensures suffix != ""
  {
  }

  /** When nothing is declared twice, a provider's variable means what its own block gave it. */
  lemma OnlyItsOwnBlock(c: Context, items: seq<Provider>, i: nat, j: nat, n: string)
    requires DeclaredOnce(Body(c, items)) && i < |items| && j < |items| && i != j && Exposes(c, items[i])
    requires n in VariablesFor(c, items[i].symbolID)
    ensures n in Declared(Block(c, items[i])) && n !in Declared(Block(c, items[j]))
  {
    hide DeclaredOnce, Declared, Block, Body, Exposes;
    BodyOnce(c, items);
    BlockOnce(c, items[i]);
    assert i < j ==> Declared(Block(c, items[i])) !! Declared(Block(c, items[j]));
    assert j < i ==> Declared(Block(c, items[j])) !! Declared(Block(c, items[i]));
  }

  /** Beans foo and fooCleanup: the body declares fooCleanup twice. */
  lemma CleanupMeets(c: Context, foo: Provider, other: Provider)
    requires foo.scope == Singleton && foo.source == Bean && LocalOf(c, foo.symbolID) == "foo"
    requires LocalOf(c, other.symbolID) == "fooCleanup" && Exposes(c, foo) && Exposes(c, other)
    ensures !DeclaredOnce(Body(c, [foo, other]))
  {
    hide DeclaredOnce, Body, Exposes;
    var items := [foo, other];
    assert "foo" + "Cleanup" == "fooCleanup";
    assert Meets(c, items[1], items[0], "Cleanup");
    DeclaredOnceIff(c, items);
  }
}
