/**
 * Names in generated code: fresh suffixes, import aliases, provider variables (compiler/generate/naming.go,
 * dependency_render.go).
 */
module Naming {
  import opened Catalog
  import opened Identifiers
  import opened StringLists
  import Decimal
  import StringOrder

  // ----- Fresh names by numeric suffix -----------------------------------------------------------

  /** The n-th name tried: the base itself, then the base followed by 2, 3, ... */
  function Candidate(base: string, n: nat): string { if n <= 1 then base else base + Decimal.Itoa(n) }

  lemma CandidatesDiffer(base: string, m: nat, n: nat)
    requires 1 <= m < n
    ensures Candidate(base, m) != Candidate(base, n)
  {
    if m == 1 {
      assert |Candidate(base, n)| > |base|;
    } else if Candidate(base, m) == Candidate(base, n) {
      assert Decimal.Itoa(m) == Candidate(base, m)[|base|..] == Decimal.Itoa(n);
      Decimal.ItoaInjective(m, n);
    }
  }

  /** The first candidate not yet used. */
  ghost predicate IsFresh(base: string, used: set<string>, name: string) {
    name !in used && exists n :: n >= 1 && name == Candidate(base, n) && forall k :: 1 <= k < n ==>
      Candidate(base, k) in used
  }

  /** The search ends: the names tried are all different, and only finitely many are used. */
  method FreshName(base: string, used: set<string>) returns (name: string)
    ensures IsFresh(base, used, name)
  {
    name := base;
    var suffix := 2;
    ghost var tried: set<string> := {};
    while name in used
      invariant suffix >= 2 && name == Candidate(base, suffix - 1)
      invariant tried <= used && |tried| == suffix - 2
      invariant forall k :: 1 <= k < suffix - 1 ==> Candidate(base, k) in tried
      invariant forall x :: x in tried ==> exists k :: 1 <= k < suffix - 1 && x == Candidate(base, k)
      decreases |used| - |tried|
    {
      if name in tried {
        var k :| 1 <= k < suffix - 1 && name == Candidate(base, k);
        CandidatesDiffer(base, k, suffix - 1);
      }
      tried := tried + {name};
      SubsetIsSmaller(tried, used);
      name := base + Decimal.Itoa(suffix);
      suffix := suffix + 1;
    }
  }

  lemma FreshIsUnique(base: string, used: set<string>, a: string, b: string)
    requires IsFresh(base, used, a) && IsFresh(base, used, b)
    ensures a == b
  {
    var m :| m >= 1 && a == Candidate(base, m) && forall k :: 1 <= k < m ==> Candidate(base, k) in used;
    var n :| n >= 1 && b == Candidate(base, n) && forall k :: 1 <= k < n ==> Candidate(base, k) in used;
  }

  // ----- Import aliases --------------------------------------------------------------------------

  /** The optional parts of a target that bring imports of their own. */
  datatype Features = Features(
    mux: bool, views: bool, management: bool, logging: bool, authorization: bool, scheduling: bool, asynchronous: bool,
    transactions: bool, events: bool, caching: bool, retry: bool, methodObservation: bool, beanHandles: bool)

  const SPICE := "github.com/spice-framework/spice/"

  /** Whether a target imports the framework package. */
  predicate Imports(f: Features, part: string) {
    match part
    case "config" => true
    case "lifecycle" => true
    case "web" => f.mux
    case "view" => f.views
    case "management" => f.management
    case "observability" => f.logging || f.methodObservation
    case "logging" => f.logging
    case "security" => f.authorization
    case "schedule" => f.scheduling
    case "async" => f.asynchronous
    case "data" => f.transactions
    case "event" => f.events
    case "cache" => f.caching
    case "retry" => f.retry
    case "bean" => f.beanHandles
    case _ => false
  }

  function AliasOf(path: string): string {
    if SPICE <= path then "spice" + path[|SPICE|..]
    else if path == "log/slog" then "slog"
    else if path == "os/signal" then "signal"
    else if path == "net/http" then "http"
    else if path == "database/sql" then "sql"
    else path
  }

  /** The aliases that do not depend on the program's own packages. */
  function FixedAliases(f: Features): map<string, string> {
    map path | path in (set p | p in STANDARD && (p == "net/http" ==> f.mux)
                        && (p == "database/sql" ==> f.transactions))
                       + (set part | part in PARTS && Imports(f, part) :: SPICE + part) :: AliasOf(path)
  }

  const STANDARD := {
    "context", "flag", "fmt", "io", "log/slog", "os", "os/signal", "syscall", "time", "net/http", "database/sql"}

  const PARTS := {
    "config", "async", "cache", "bean", "data", "event", "intercept", "lifecycle", "logging", "management",
    "observability", "schedule", "security", "retry", "view", "web"}

  const WORDS := {
    "Application", "ApplicationOptions", "CommandOptions", "ConfigurationSchema", "ExitFailure", "ExitSuccess",
    "ExitUsage", "Main", "NewApplication", "NewApplicationWithOptions", "RunCommand", "TargetID", "context", "flag",
    "fmt", "http", "io", "os", "signal", "slog", "sql", "strings", "syscall", "time"}

  /** Names no alias may take. */
  function Reserved(): set<string> { WORDS + set part | part in PARTS :: "spice" + part }

  /** The path a fixed alias belongs to. */
  function Owner(alias: string): string {
    if "spice" <= alias then SPICE + alias[5..]
    else if alias == "slog" then "log/slog"
    else if alias == "signal" then "os/signal"
    else if alias == "http" then "net/http"
    else if alias == "sql" then "database/sql"
    else alias
  }

  lemma SpiceIsOwned(part: string)
    ensures AliasOf(SPICE + part) == "spice" + part && Owner("spice" + part) == SPICE + part
  {
    assert (SPICE + part)[|SPICE|..] == part && ("spice" + part)[5..] == part;
  }

  lemma StandardIsOwned(path: string)
    requires path in STANDARD
    ensures Owner(AliasOf(path)) == path && AliasOf(path) in WORDS
  {
    assert SPICE[0] == 'g' && SPICE[1] == 'i' && path[0] != 'g';
    assert "spice"[0] == 's' && "spice"[1] == 'p';
    assert AliasOf(path)[0] != 's' || AliasOf(path)[1] != 'p';
  }

  /** The fixed aliases are distinct and reserved. */
  lemma FixedAreOwned(f: Features, path: string)
    requires path in FixedAliases(f)
    ensures Owner(FixedAliases(f)[path]) == path && FixedAliases(f)[path] in Reserved()
  {
    hide Owner, AliasOf, Imports;
    if path in STANDARD {
      StandardIsOwned(path);
    } else {
      var part :| part in PARTS && path == SPICE + part;
      SpiceIsOwned(part);
    }
  }

  ghost predicate Distinct(aliases: map<string, string>) {
    forall p, q :: p in aliases && q in aliases && aliases[p] == aliases[q] ==> p == q
  }

  /** A package's alias: its name, or the name with a number; never a reserved word. */
  ghost predicate Named(aliases: map<string, string>, names: map<string, string>, path: string) {
    path in aliases && path in names && aliases[path] !in Reserved()
    && exists n: nat :: aliases[path] == Candidate(names[path], n)
  }

  ghost predicate Assigned(f: Features, names: map<string, string>, done: set<string>, aliases: map<string, string>) {
    && aliases.Keys == FixedAliases(f).Keys + done && Distinct(aliases)
    && (forall p :: p in FixedAliases(f) ==> aliases[p] == FixedAliases(f)[p])
    && (forall p :: p in done ==> Named(aliases, names, p))
  }

  ghost function AliasesIn(aliases: map<string, string>, paths: set<string>): set<string> {
    set p | p in paths && p in aliases :: aliases[p]
  }

  /** A package takes the first of its candidates that is neither reserved nor taken by a smaller path. */
  ghost predicate FirstFree(names: map<string, string>, aliases: map<string, string>, path: string) {
    path in names && path in aliases
    && IsFresh(names[path], Reserved() + AliasesIn(aliases, Smaller(names, path)), aliases[path])
  }

  ghost function Smaller(names: map<string, string>, path: string): set<string> {
    set p | p in names && StringOrder.Less(p, path)
  }

  lemma AliasesAreKeyed(f: Features, names: map<string, string>, done: set<string>, aliases: map<string, string>)
    requires Assigned(f, names, done, aliases)
    ensures aliases.Keys == FixedAliases(f).Keys + done
  {
  }

  /** The paths before `rest` have their aliases. */
  ghost predicate InPathOrder(names: map<string, string>, aliases: map<string, string>, rest: set<string>,
                              used: set<string>) {
    && used == Reserved() + AliasesIn(aliases, names.Keys - rest)
    && (forall p, q :: p in names && p !in rest && q in rest ==> StringOrder.Less(p, q))
    && forall p :: p in names && p !in rest ==> FirstFree(names, aliases, p)
  }

  lemma OneMoreFirst(names: map<string, string>, aliases: map<string, string>, rest: set<string>, used: set<string>,
                     path: string, alias: string)
    requires StringOrder.IsLeast(path, rest) && rest <= names.Keys && path !in aliases
    requires InPathOrder(names, aliases, rest, used) && IsFresh(names[path], used, alias)
    ensures InPathOrder(names, aliases[path := alias], rest - {path}, used + {alias})
  {
    hide StringOrder.Less, IsFresh, Reserved;
    var more := aliases[path := alias];
    forall p | p in names && p !in rest - {path} ensures FirstFree(names, more, p) {
      assert !StringOrder.Less(path, p) by {
        if p == path { StringOrder.LessIrreflexive(p); } else { StringOrder.LessAsymmetric(p, path); }
      }
      assert AliasesIn(more, Smaller(names, p)) == AliasesIn(aliases, Smaller(names, p));
      if p == path { SmallerAreDone(names, rest, path); }
    }
    assert AliasesIn(more, names.Keys - (rest - {path})) == AliasesIn(aliases, names.Keys - rest) + {alias};
  }

  lemma SmallerAreDone(names: map<string, string>, rest: set<string>, path: string)
    requires StringOrder.IsLeast(path, rest) && rest <= names.Keys
    requires forall p, q :: p in names && p !in rest && q in rest ==> StringOrder.Less(p, q)
    ensures Smaller(names, path) == names.Keys - rest
  {
    hide StringOrder.Less;
    forall p | p in names && p in rest ensures !StringOrder.Less(p, path) {
      if p == path { StringOrder.LessIrreflexive(p); } else { StringOrder.LessAsymmetric(path, p); }
    }
  }

  /**
   * Assigns the program's packages aliases in path order: the package name, else the name with the first free
   * number.
   */
  method ImportAliases(f: Features, names: map<string, string>) returns (aliases: map<string, string>)
    requires names.Keys !! FixedAliases(f).Keys
    ensures Assigned(f, names, names.Keys, aliases)
    ensures forall p :: p in names ==> FirstFree(names, aliases, p)
  {
    aliases := FixedAliases(f);
    FixedAreDistinct(f);
    NoAliasesYet(f, names);
    hide FixedAliases, Reserved, IsFresh, Named, Assigned, StringOrder.Less, FirstFree, InPathOrder;
    var used := Reserved();
    NoneInPathOrder(names, aliases);
    var rest := names.Keys;
    assert names.Keys - rest == {};
    while rest != {}
      invariant rest <= names.Keys && Assigned(f, names, names.Keys - rest, aliases)
      invariant Reserved() <= used && forall p :: p in aliases ==> aliases[p] in used
      invariant InPathOrder(names, aliases, rest, used)
      decreases |rest|
    {
      StringOrder.LeastExists(rest);
      var path: string :| StringOrder.IsLeast(path, rest);
      var alias := FreshName(names[path], used);
      OneMoreAlias(f, names, names.Keys - rest, aliases, used, path, alias);
      AliasesAreKeyed(f, names, names.Keys - rest, aliases);
      OneMoreFirst(names, aliases, rest, used, path, alias);
      assert names.Keys - (rest - {path}) == (names.Keys - rest) + {path};
      used := used + {alias};
      aliases := aliases[path := alias];
      rest := rest - {path};
    }
    assert names.Keys - rest == names.Keys;
    AllInPathOrder(names, aliases, used);
  }

  lemma NoneInPathOrder(names: map<string, string>, aliases: map<string, string>)
    ensures InPathOrder(names, aliases, names.Keys, Reserved())
  {
    hide Reserved;
    assert AliasesIn(aliases, names.Keys - names.Keys) == {};
  }

  lemma AllInPathOrder(names: map<string, string>, aliases: map<string, string>, used: set<string>)
    requires InPathOrder(names, aliases, {}, used)
    ensures forall p :: p in names ==> FirstFree(names, aliases, p)
  {
  }

  lemma NoAliasesYet(f: Features, names: map<string, string>)
    ensures Assigned(f, names, {}, FixedAliases(f))
  {
    FixedAreDistinct(f);
    hide FixedAliases;
  }

  lemma OneMoreAlias(f: Features, names: map<string, string>, done: set<string>, aliases: map<string, string>,
                     used: set<string>, path: string, alias: string)
    requires Assigned(f, names, done, aliases) && path in names && path !in done && path !in FixedAliases(f)
    requires Reserved() <= used && (forall p :: p in aliases ==> aliases[p] in used)
    requires IsFresh(names[path], used, alias)
    ensures Assigned(f, names, done + {path}, aliases[path := alias])
  {
    hide FixedAliases, Reserved, IsFresh;
    FreshIsUnused(names[path], used, alias);
    forall p | p in done + {path} ensures Named(aliases[path := alias], names, p) {
      if p != path { assert Named(aliases, names, p); }
    }
  }

  lemma FreshIsUnused(base: string, used: set<string>, name: string)
    requires IsFresh(base, used, name)
    ensures name !in used && exists n: nat :: name == Candidate(base, n)
  {
    var n: int :| n >= 1 && name == Candidate(base, n) && forall k :: 1 <= k < n ==> Candidate(base, k) in used;
    var m: nat := n;
    assert name == Candidate(base, m);
  }

  lemma FixedAreDistinct(f: Features)
    ensures Distinct(FixedAliases(f)) && forall p :: p in FixedAliases(f) ==> FixedAliases(f)[p] in Reserved()
  {
    forall p | p in FixedAliases(f)
      ensures Owner(FixedAliases(f)[p]) == p && FixedAliases(f)[p] in Reserved()
    {
      FixedAreOwned(f, p);
    }
    hide FixedAliases, Owner, Reserved;
  }

  // ----- Provider variables ----------------------------------------------------------------------

  /**
   * What naming reads of a provider besides its catalog record; packageBase is the last element of the package
   * path.
   */
  datatype Origin = Origin(symbolName: string, explicitName: bool, outputName: string, packageBase: string)

  predicate IsConstructorName(name: string) { "New" <= name || "new" <= name }

  /** A bean's own name, or its constructor's without the New, or its output type's. */
  function SemanticName(u: Unicode, p: Provider, o: Origin): string {
    var name := if p.name == "" then o.symbolName else p.name;
    if !o.explicitName && (name == "New" || name == "new") && o.outputName != "Interface" then o.outputName
    else if !o.explicitName && IsConstructorName(name) && |name| > 3 && IsIdentifier(u, name[3..]) then name[3..]
    else name
  }

  method SemanticProviderName(u: Unicode, p: Provider, o: Origin) returns (name: string)
    ensures name == SemanticName(u, p, o)
  {
    name := p.name;
    if name == "" { name := o.symbolName; }
    if !o.explicitName && (name == "New" || name == "new") {
      if o.outputName != "Interface" { return o.outputName; }
    }
    if !o.explicitName && IsConstructorName(name) && |name| > |"New"| {
      var trimmed := name[|"New"|..];
      if IsIdentifier(u, trimmed) { name := trimmed; }
    }
  }

  /**
   * An implicit bean is called what follows the New of its constructor, or like its output type if nothing follows;
   * every other name stays.
   */
  lemma ConstructorNamesItsProduct(u: Unicode, p: Provider, o: Origin, name: string, word: string)
    requires name == if p.name != "" then p.name else o.symbolName
    ensures o.explicitName || !("New" <= name || "new" <= name) ==> SemanticName(u, p, o) == name
    ensures !o.explicitName && word != "" && name in {"New" + word, "new" + word} ==>
              SemanticName(u, p, o) == if IsIdentifier(u, word) then word else name
    ensures !o.explicitName && name in {"New", "new"} ==>
              SemanticName(u, p, o) == if o.outputName == "Interface" then name else o.outputName
  {
    hide IsIdentifier;
    assert ("New" + word)[3..] == word && ("new" + word)[3..] == word;
  }

  /** Thus NewStore gives store and NewHTTPServer gives httpServer, unless the word is taken. */
  lemma ConstructorVariable(u: Unicode, p: Provider, o: Origin, index: nat, word: string, first: char, caps: string,
                            rest: string)
    requires !o.explicitName && p.name in {"New" + word, "new" + word} && IsIdentifier(u, word)
    requires word == [first] + caps + rest && Capitals(u, caps) && EndsInitialism(u, caps, rest)
    requires IsIdentifier(u, LowerAll(u, [first] + caps) + rest) && !IsReserved(LowerAll(u, [first] + caps) + rest)
    ensures Base(u, p, o, index) == LowerAll(u, [first] + caps) + rest
  {
    hide SemanticName, Local, IsIdentifier, IsReserved, LowerAll;
    assert |p.name| == |word| + 3;
    ConstructorNamesItsProduct(u, p, o, p.name, word);
    LocalOfName(u, word, "provider" + Decimal.Itoa(index), first, caps, rest);
  }

  function Base(u: Unicode, p: Provider, o: Origin, index: nat): string {
    Local(u, SemanticName(u, p, o), "provider" + Decimal.Itoa(index))
  }

  method ProviderVariableBase(u: Unicode, p: Provider, o: Origin, index: nat) returns (base: string)
    ensures base == Base(u, p, o, index)
  {
    var name := SemanticProviderName(u, p, o);
    base := LocalGeneratedIdentifier(u, name, "provider" + Decimal.Itoa(index));
  }

  function Bases(u: Unicode, items: seq<Provider>, origins: seq<Origin>): (r: seq<string>)
    requires |items| == |origins|
    ensures |r| == |items|
  {
    seq(|items|, i requires 0 <= i < |items| => Base(u, items[i], origins[i], i))
  }

  /** How often a base occurs. */
  function Occurrences(bases: seq<string>, base: string): nat {
    if bases == [] then 0 else Occurrences(bases[..|bases|-1], base) + (if bases[|bases|-1] == base then 1 else 0)
  }

  function QualifiedBase(u: Unicode, o: Origin, base: string): string {
    Local(u, o.packageBase, "pkg") + Exported(u, base, "Bean")
  }

  /** The base a provider ends up with: a repeated one is qualified by its package. */
  function FinalBase(u: Unicode, items: seq<Provider>, origins: seq<Origin>, i: nat): string
    requires i < |items| == |origins|
  {
    var bases := Bases(u, items, origins);
    if Occurrences(bases, bases[i]) > 1 then QualifiedBase(u, origins[i], bases[i]) else bases[i]
  }

  function FinalBases(u: Unicode, items: seq<Provider>, origins: seq<Origin>): (r: seq<string>)
    requires |items| == |origins|
    ensures |r| == |items|
  {
    seq(|items|, i requires 0 <= i < |items| => FinalBase(u, items, origins, i))
  }

  /** A provider's variable: its final base, numbered from the second use on. */
  function VariableAt(finals: seq<string>, i: nat): string
    requires i < |finals|
  {
    Candidate(finals[i], Occurrences(finals[..i+1], finals[i]))
  }

  ghost function Uses(bases: seq<string>, base: string): set<nat> { set j: nat | j < |bases| && bases[j] == base }

  lemma {:induction false} OccurrencesCount(bases: seq<string>, base: string)
    ensures Occurrences(bases, base) == |Uses(bases, base)|
  {
    if bases == [] {
      assert Uses(bases, base) == {};
    } else {
      var init, last := bases[..|bases|-1], |bases| - 1;
      OccurrencesCount(init, base);
      assert Uses(bases, base) == Uses(init, base) + if bases[last] == base then {last} else {};
    }
  }

  /** A base is qualified by its package exactly when another provider has the same. */
  lemma QualifiedIffShared(u: Unicode, items: seq<Provider>, origins: seq<Origin>, i: nat)
    requires i < |items| == |origins|
    ensures var bases := Bases(u, items, origins);
            FinalBase(u, items, origins, i) ==
            if exists j :: 0 <= j < |bases| && j != i && bases[j] == bases[i]
            then Local(u, origins[i].packageBase, "pkg") + Exported(u, bases[i], "Bean") else bases[i]
  {
    hide Occurrences, Bases;
    var bases := Bases(u, items, origins);
    OccurrencesCount(bases, bases[i]);
    var uses: set<nat> := Uses(bases, bases[i]);
    assert i in uses;
    if j: int :| 0 <= j < |bases| && j != i && bases[j] == bases[i] {
      var k: nat := j;
      SetOfTwo(uses, i, k);
    } else {
      assert uses == {i};
    }
  }

  lemma SetOfTwo(s: set<nat>, a: nat, b: nat)
    requires a in s && b in s && a != b
    ensures |s| > 1
  {
    assert s == {a, b} + (s - {a, b});
  }

  /** The first use of a base is the base itself, and the n-th carries the number n. */
  lemma UsesAreNumbered(finals: seq<string>, i: nat)
    requires i < |finals|
    ensures VariableAt(finals, i) ==
            if Uses(finals[..i], finals[i]) == {} then finals[i]
            else finals[i] + Decimal.Itoa(|Uses(finals[..i], finals[i])| + 1)
  {
    hide Occurrences;
    var earlier := Uses(finals[..i], finals[i]);
    OccurrencesCount(finals[..i+1], finals[i]);
    assert Uses(finals[..i+1], finals[i]) == earlier + {i};
    assert earlier != {} ==> |earlier| > 0;
  }

  ghost predicate Counts(counts: map<string, nat>, bases: seq<string>) {
    forall b :: (if b in counts then counts[b] else 0) == Occurrences(bases, b)
  }

  /** Counts the next base. */
  method CountNext(counts: map<string, nat>, ghost bases: seq<string>, base: string) returns (more: map<string, nat>)
    requires Counts(counts, bases)
    ensures Counts(more, bases + [base]) && base in more && more[base] == Occurrences(bases + [base], base)
  {
    assert (bases + [base])[..|bases|] == bases;
    more := counts[base := (if base in counts then counts[base] else 0) + 1];
  }

  lemma NothingCounted(bases: seq<string>)
    ensures Counts(map[], bases[..0])
  {
  }

  /** How often each base occurs among all providers. */
  method CountBases(u: Unicode, items: seq<Provider>, origins: seq<Origin>) returns (counts: map<string, nat>)
    requires |items| == |origins|
    ensures Counts(counts, Bases(u, items, origins))
  {
    hide Counts, Occurrences, Base;
    ghost var bases := Bases(u, items, origins);
    counts := map[];
    NothingCounted(bases);
    for i := 0 to |items|
      invariant Counts(counts, bases[..i])
    {
      var base := ProviderVariableBase(u, items[i], origins[i], i);
      counts := CountNext(counts, bases[..i], base);
      assert bases[..i+1] == bases[..i] + [base];
    }
    assert bases[..|items|] == bases;
  }

  method FinalProviderBase(u: Unicode, items: seq<Provider>, origins: seq<Origin>, counts: map<string, nat>, i: nat)
      returns (base: string)
    requires i < |items| == |origins| && Counts(counts, Bases(u, items, origins))
    ensures base == FinalBase(u, items, origins, i)
  {
    hide Counts, Occurrences, Base;
    base := ProviderVariableBase(u, items[i], origins[i], i);
    CountOf(counts, Bases(u, items, origins), i);
    if counts[base] > 1 {
      var packageName := LocalGeneratedIdentifier(u, origins[i].packageBase, "pkg");
      var exported := ExportedGeneratedIdentifier(u, base, "Bean");
      base := packageName + exported;
    }
  }

  method ProviderVariableNames(u: Unicode, items: seq<Provider>, origins: seq<Origin>) returns (result: seq<string>)
    requires |items| == |origins|
    ensures |result| == |items|
    ensures forall i :: 0 <= i < |items| ==> result[i] == VariableAt(FinalBases(u, items, origins), i)
  {
    hide Counts, Occurrences, FinalBase, Bases;
    ghost var finals := FinalBases(u, items, origins);
    var baseCounts := CountBases(u, items, origins);
    var used: map<string, nat> := map[];
    result := [];
    NothingCounted(finals);
    for i := 0 to |items|
      invariant |result| == i && Counts(used, finals[..i])
      invariant forall k :: 0 <= k < i ==> result[k] == VariableAt(finals, k)
    {
      var base := FinalProviderBase(u, items, origins, baseCounts, i);
      used := CountNext(used, finals[..i], base);
      assert finals[..i+1] == finals[..i] + [base];
      result := result + [if used[base] > 1 then base + Decimal.Itoa(used[base]) else base];
    }
  }

  lemma CountOf(counts: map<string, nat>, bases: seq<string>, i: nat)
    requires Counts(counts, bases) && i < |bases|
    ensures bases[i] in counts && counts[bases[i]] == Occurrences(bases, bases[i])
  {
    Occurs(bases, i);
  }

  lemma {:induction false} Occurs(bases: seq<string>, i: nat)
    requires i < |bases|
    ensures Occurrences(bases, bases[i]) >= 1
  {
    if i < |bases| - 1 {
      Occurs(bases[..|bases|-1], i);
      assert bases[..|bases|-1][i] == bases[i];
    }
  }

  lemma {:induction false} OccurrencesGrow(finals: seq<string>, i: nat, j: nat, base: string)
    requires i <= j <= |finals|
    ensures Occurrences(finals[..i], base) <= Occurrences(finals[..j], base)
    decreases j
  {
    if i < j {
      OccurrencesGrow(finals, i, j - 1, base);
      assert finals[..j][..j-1] == finals[..j-1];
    }
  }

  /** Every number up to the count is reached at some index. */
  lemma {:induction false} NumberReached(finals: seq<string>, base: string, n: nat) returns (i: nat)
    requires 1 <= n <= Occurrences(finals, base)
    ensures i < |finals| && finals[i] == base && Occurrences(finals[..i+1], base) == n
    decreases |finals|
  {
    var init := finals[..|finals|-1];
    if n <= Occurrences(init, base) {
      i := NumberReached(init, base, n);
      assert init[..i+1] == finals[..i+1];
    } else {
      i := |finals| - 1;
      assert finals[..i+1] == finals;
    }
  }

  /** Base g is base f with a number that f's own numbering reaches, or with the 1 of such a number 1n. */
  predicate Shadows(finals: seq<string>, f: string, g: string) {
    && f <= g && Decimal.IsNumeral(g[|f|..])
    && (2 <= Decimal.Atoi(g[|f|..]) <= Occurrences(finals, f)
        || (g == f + "1" && Occurrences(finals, g) >= 2 && Occurrences(finals, f) >= 12))
  }

  predicate SomeShadow(finals: seq<string>) {
    exists i, j :: 0 <= i < |finals| && 0 <= j < |finals| && Shadows(finals, finals[i], finals[j])
  }

  predicate AllDiffer(finals: seq<string>) {
    forall i, j :: 0 <= i < j < |finals| ==> VariableAt(finals, i) != VariableAt(finals, j)
  }

  /** The variables are pairwise different exactly when no base shadows another. */
  lemma VariablesDistinctIff(finals: seq<string>)
    ensures AllDiffer(finals) <==> !SomeShadow(finals)
  {
    if i, j :| 0 <= i < |finals| && 0 <= j < |finals| && Shadows(finals, finals[i], finals[j]) {
      var k, m := ShadowMeets(finals, finals[i], finals[j]);
      if k < m {
        assert VariableAt(finals, k) == VariableAt(finals, m);
      } else {
        assert VariableAt(finals, m) == VariableAt(finals, k);
      }
    }
    if !SomeShadow(finals) {
      forall i, j | 0 <= i < j < |finals|
        ensures VariableAt(finals, i) != VariableAt(finals, j)
      {
        NoShadowNoMeeting(finals, i, j);
      }
    }
  }

  lemma ShadowMeets(finals: seq<string>, f: string, g: string) returns (i: nat, j: nat)
    requires Shadows(finals, f, g) && g in finals
    ensures i < |finals| && j < |finals| && i != j && VariableAt(finals, i) == VariableAt(finals, j)
  {
    var x := g[|f|..];
    var k :| 0 <= k < |finals| && finals[k] == g;
    Occurs(finals, k);
    assert g == f + x;
    if 2 <= Decimal.Atoi(x) <= Occurrences(finals, f) {
      Decimal.ItoaAtoi(x);
      i := NumberReached(finals, f, Decimal.Atoi(x));
      j := NumberReached(finals, g, 1);
    } else {
      i := NumberReached(finals, f, 12);
      j := NumberReached(finals, g, 2);
      assert Decimal.Itoa(12) == "12" && Decimal.Itoa(2) == "2" && f + "12" == g + "2";
    }
  }

  lemma NumberWithin(finals: seq<string>, i: nat)
    requires i < |finals|
    ensures 1 <= Occurrences(finals[..i+1], finals[i]) <= Occurrences(finals, finals[i])
  {
    hide Occurrences;
    assert finals[..|finals|] == finals;
    OccurrencesGrow(finals, i + 1, |finals|, finals[i]);
    Occurs(finals[..i+1], i);
  }

  lemma NumbersIncrease(finals: seq<string>, i: nat, j: nat)
    requires i < j < |finals| && finals[i] == finals[j]
    ensures Occurrences(finals[..i+1], finals[i]) < Occurrences(finals[..j+1], finals[j])
  {
    OccurrencesGrow(finals, i + 1, j, finals[i]);
    assert finals[..j+1][..j] == finals[..j];
  }

  lemma NoShadowNoMeeting(finals: seq<string>, i: nat, j: nat)
    requires i < j < |finals| && !SomeShadow(finals)
    ensures VariableAt(finals, i) != VariableAt(finals, j)
  {
    var f, g := finals[i], finals[j];
    var m, n := Occurrences(finals[..i+1], f), Occurrences(finals[..j+1], g);
    hide Shadows, Occurrences, Candidate;
    NumberWithin(finals, i);
    NumberWithin(finals, j);
    assert !Shadows(finals, f, g) && !Shadows(finals, g, f);
    if f == g {
      NumbersIncrease(finals, i, j);
      CandidatesDiffer(f, m, n);
    } else if Candidate(f, m) == Candidate(g, n) {
      if |f| < |g| { MeetingShadows(finals, f, m, g, n); } else { MeetingShadows(finals, g, n, f, m); }
    }
  }

  function Suffix(n: nat): string { if n <= 1 then "" else Decimal.Itoa(n) }

  lemma SuffixOf(f: string, m: nat, g: string, n: nat)
    requires Candidate(f, m) == Candidate(g, n) && |f| <= |g|
    ensures f <= g && Suffix(m) == g[|f|..] + Suffix(n) && g == f + g[|f|..]
  {
    var s := Candidate(f, m);
    assert s == f + Suffix(m) && s == g + Suffix(n);
    assert f == s[..|f|] && g == s[..|g|] && s[..|g|][..|f|] == s[..|f|];
    assert Suffix(m) == s[|f|..] && Suffix(n) == s[|g|..] && s[|f|..] == s[|f|..|g|] + s[|g|..];
    assert g[|f|..] == s[|f|..|g|];
  }

  /** If two numbered bases meet, the longer one is shadowed by the shorter. */
  lemma MeetingShadows(finals: seq<string>, f: string, m: nat, g: string, n: nat)
    requires f != g && |f| <= |g| && Candidate(f, m) == Candidate(g, n)
    requires 1 <= m <= Occurrences(finals, f) && 1 <= n <= Occurrences(finals, g)
    ensures Shadows(finals, f, g)
  {
    SuffixOf(f, m, g, n);
    var x, y := g[|f|..], Suffix(n);
    hide Occurrences, Candidate;
    assert x != "" && m >= 2;
    Decimal.ItoaIsNumeral(m);
    Decimal.AtoiItoa(m);
    assert forall k :: 0 <= k < |x| ==> x[k] == (x + y)[k];
    Decimal.NumeralIsPositive(x);
    if n >= 2 {
      Decimal.AtoiItoa(n);
      Decimal.AtoiAppend(x, y);
      if Decimal.Atoi(x) == 1 {
        Decimal.ItoaAtoi(x);
        assert Decimal.Itoa(1) == "1";
      }
    } else {
      assert x + "" == x;
    }
  }

  /** Bases that do not end in a digit never meet. */
  lemma UndigitedBasesAreDistinct(finals: seq<string>)
    requires forall i :: 0 <= i < |finals| ==> finals[i] != "" && !Decimal.IsDigit(finals[i][|finals[i]|-1])
    ensures AllDiffer(finals)
  {
    forall i, j | 0 <= i < |finals| && 0 <= j < |finals| ensures !Shadows(finals, finals[i], finals[j]) {
      var f, g := finals[i], finals[j];
      if |f| < |g| { assert g[|f|..][|g|-|f|-1] == g[|g|-1]; }
    }
    VariablesDistinctIff(finals);
  }

  /** Every variable is an identifier. */
  lemma VariablesAreIdentifiers(u: Unicode, items: seq<Provider>, origins: seq<Origin>, i: nat)
    requires Standard(u) && i < |items| == |origins|
    ensures IsIdentifier(u, VariableAt(FinalBases(u, items, origins), i))
  {
    hide Occurrences, SemanticName;
    var finals := FinalBases(u, items, origins);
    FinalIsIdentifier(u, items, origins, i);
    var n := Occurrences(finals[..i+1], finals[i]);
    if n > 1 { AppendKeepsIdentifier(u, finals[i], Decimal.Itoa(n)); }
  }

  lemma FallbackIsIdentifier(u: Unicode, index: nat)
    requires Standard(u)
    ensures IsIdentifier(u, "provider" + Decimal.Itoa(index)) && !IsReserved("provider" + Decimal.Itoa(index))
  {
    hide Decimal.Itoa;
    var s, digits := "provider" + Decimal.Itoa(index), Decimal.Itoa(index);
    assert forall i :: 0 <= i < 8 ==> s[i] == "provider"[i] && 'a' <= s[i] <= 'z';
    assert forall i :: 8 <= i < |s| ==> s[i] == digits[i-8] && Decimal.IsDigit(s[i]);
    EndsInDigit(s);
  }

  lemma EndsInDigit(s: string)
    requires s != "" && Decimal.IsDigit(s[|s|-1])
    ensures s !in KEYWORDS && !IsReserved(s)
  {
    if s in KEYWORDS { KeywordEndsInLetter(s); }
    if IsReserved(s) { ReservedEndsInLetter(s); }
  }

  lemma KeywordEndsInLetter(s: string)
    requires s in KEYWORDS
    ensures s != "" && !Decimal.IsDigit(s[|s|-1])
  {
  }

  lemma ReservedEndsInLetter(s: string)
    requires IsReserved(s)
    ensures s != "" && !Decimal.IsDigit(s[|s|-1])
  {
  }

  lemma BaseIsIdentifier(u: Unicode, p: Provider, o: Origin, index: nat)
    requires Standard(u)
    ensures IsIdentifier(u, Base(u, p, o, index)) && !IsReserved(Base(u, p, o, index))
  {
    FallbackIsIdentifier(u, index);
    LocalIsIdentifier(u, SemanticName(u, p, o), "provider" + Decimal.Itoa(index));
  }

  lemma AppendKeepsIdentifier(u: Unicode, s: string, digits: string)
    requires Standard(u) && IsIdentifier(u, s) && digits != ""
    requires forall i :: 0 <= i < |digits| ==> Decimal.IsDigit(digits[i])
    ensures IsIdentifier(u, s + digits)
  {
    var r := s + digits;
    EndsInDigit(r);
    hide KEYWORDS, IsReserved;
    forall i | 0 <= i < |r| ensures IsPart(u, r[i], i == 0) {
      if i >= |s| { assert r[i] == digits[i-|s|]; }
    }
  }

  lemma FinalIsIdentifier(u: Unicode, items: seq<Provider>, origins: seq<Origin>, i: nat)
    requires Standard(u) && i < |items| == |origins|
    ensures IsIdentifier(u, FinalBases(u, items, origins)[i])
  {
    hide Occurrences, Base, QualifiedBase, IsIdentifier;
    BaseIsIdentifier(u, items[i], origins[i], i);
    QualifiedIsIdentifier(u, origins[i], Base(u, items[i], origins[i], i));
  }

  lemma QualifiedIsIdentifier(u: Unicode, o: Origin, base: string)
    requires Standard(u)
    ensures IsIdentifier(u, QualifiedBase(u, o, base))
  {
    hide Local, Exported;
    assert IsIdentifier(u, "pkg") && !IsReserved("pkg");
    LocalIsIdentifier(u, o.packageBase, "pkg");
    ExportedIsIdentifier(u, base);
    CapitalInside(u, Local(u, o.packageBase, "pkg"), Exported(u, base, "Bean"));
  }

  lemma CapitalInside(u: Unicode, a: string, b: string)
    requires Standard(u) && IsIdentifier(u, a) && IsIdentifier(u, b) && u.isUpper(b[0])
    ensures IsIdentifier(u, a + b)
  {
    var s := a + b;
    assert u.isUpper(s[|a|]);
    forall w, k | w in KEYWORDS && 0 <= k < |w| ensures 'a' <= w[k] <= 'z' {}
    hide KEYWORDS;
    forall i | 0 <= i < |s| ensures IsPart(u, s[i], i == 0) {
      if i >= |a| { assert s[i] == b[i-|a|] && IsPart(u, b[i-|a|], i == |a|); } else { assert s[i] == a[i]; }
    }
  }

  /** The package and bean identifiers that together spell a reserved name. */
  const RESERVED_PAIRS := {
    ("configuration", "Schema"), ("configuration", "Snapshot"), ("http", "Observers"), ("management", "Metrics")}

  /** The provider's base is repeated, and its package and bean are one of those pairs. */
  predicate SpellsReserved(u: Unicode, items: seq<Provider>, origins: seq<Origin>, i: nat)
    requires |items| == |origins|
  {
    i < |items| && var bases := Bases(u, items, origins);
    && Occurrences(bases, bases[i]) > 1
    && (Local(u, origins[i].packageBase, "pkg"), Exported(u, bases[i], "Bean")) in RESERVED_PAIRS
  }

  /** Two parts, the second beginning with a capital, spell a reserved name in four ways only. */
  lemma SplitsReserved(u: Unicode, a: string, b: string)
    requires Standard(u) && a != "" && b != "" && u.isUpper(b[0])
    ensures IsReserved(a + b) <==> (a, b) in RESERVED_PAIRS
  {
    hide IsReserved, RESERVED_PAIRS;
    var s := a + b;
    assert s[..|a|] == a && s[|a|..] == b && s[|a|] == b[0];
    if IsReserved(s) {
      SplitAtCapital(s, |a|);
    } else if (a, b) in RESERVED_PAIRS {
      PairsSpell(a, b);
    }
  }

  lemma PredeclaredIsLower(s: string, k: nat)
    requires s in PREDECLARED && k < |s|
    ensures 'a' <= s[k] <= 'z'
  {
  }

  const CAPITALIZED := {
    ("configurationSchema", 13), ("configurationSnapshot", 13), ("httpObservers", 4), ("managementMetrics", 10)}

  /** Four reserved names have a capital, each in one place. */
  lemma CapitalPlaces(s: string, k: nat)
    requires s in GENERATED && k < |s| && !('a' <= s[k] <= 'z')
    ensures (s, k) in CAPITALIZED
  {
  }

  lemma SplitAtCapital(s: string, k: nat)
    requires IsReserved(s) && k < |s| && !('a' <= s[k] <= 'z')
    ensures (s[..k], s[k..]) in RESERVED_PAIRS
  {
    hide PREDECLARED, GENERATED;
    if s in PREDECLARED { PredeclaredIsLower(s, k); }
    CapitalPlaces(s, k);
    assert "configurationSchema"[..13] == "configuration" && "configurationSchema"[13..] == "Schema";
    assert "configurationSnapshot"[..13] == "configuration" && "configurationSnapshot"[13..] == "Snapshot";
    assert "httpObservers"[..4] == "http" && "httpObservers"[4..] == "Observers";
    assert "managementMetrics"[..10] == "management" && "managementMetrics"[10..] == "Metrics";
  }

  lemma PairsSpell(a: string, b: string)
    requires (a, b) in RESERVED_PAIRS
    ensures IsReserved(a + b)
  {
    assert "configuration" + "Schema" == "configurationSchema";
    assert "configuration" + "Snapshot" == "configurationSnapshot";
    assert "http" + "Observers" == "httpObservers" && "management" + "Metrics" == "managementMetrics";
  }

  /**
   * Some variable takes a reserved name exactly when a bean and its package are one of four pairs and another bean
   * has the same base.
   */
  lemma ReservedIff(u: Unicode, items: seq<Provider>, origins: seq<Origin>)
    requires Standard(u) && |items| == |origins|
    ensures (exists i :: 0 <= i < |items| && IsReserved(VariableAt(FinalBases(u, items, origins), i)))
       <==> (exists i :: 0 <= i < |items| && SpellsReserved(u, items, origins, i))
  {
    hide Occurrences, Base, QualifiedBase, IsReserved, RESERVED_PAIRS;
    var finals := FinalBases(u, items, origins);
    forall i | 0 <= i < |items| ensures SpellsReserved(u, items, origins, i) <==> IsReserved(finals[i]) {
      BaseIsIdentifier(u, items[i], origins[i], i);
      QualifiedReserved(u, origins[i], Base(u, items[i], origins[i], i));
    }
    forall i | 0 <= i < |items| && IsReserved(VariableAt(finals, i)) ensures SpellsReserved(u, items, origins, i) {
      var n := Occurrences(finals[..i+1], finals[i]);
      if n > 1 { EndsInDigit(VariableAt(finals, i)); }
    }
    if i :| 0 <= i < |items| && SpellsReserved(u, items, origins, i) {
      Occurs(finals, i);
      var k := NumberReached(finals, finals[i], 1);
      assert VariableAt(finals, k) == finals[i];
    }
  }

  lemma QualifiedReserved(u: Unicode, o: Origin, base: string)
    requires Standard(u)
    ensures IsReserved(QualifiedBase(u, o, base))
       <==> (Local(u, o.packageBase, "pkg"), Exported(u, base, "Bean")) in RESERVED_PAIRS
  {
    hide Local, Exported, RESERVED_PAIRS;
    assert IsIdentifier(u, "pkg") && !IsReserved("pkg");
    LocalIsIdentifier(u, o.packageBase, "pkg");
    ExportedIsIdentifier(u, base);
    SplitsReserved(u, Local(u, o.packageBase, "pkg"), Exported(u, base, "Bean"));
  }

  // ----- Names that meet -------------------------------------------------------------------------

  /** Implicit plain ASCII names that stand for themselves. */
  lemma PlainBase(u: Unicode, p: Provider, o: Origin, index: nat)
    requires Standard(u) && !o.explicitName && IsIdentifier(u, p.name) && !IsReserved(p.name)
    requires 'a' <= p.name[0] <= 'z' && p.name[0] != 'n'
    requires |p.name| > 2 && ('a' <= p.name[1] <= 'z' || 'a' <= p.name[2] <= 'z')
    ensures Base(u, p, o, index) == p.name
  {
    var name := p.name;
    assert !IsConstructorName(name);
    assert InitialismEnd(u, name, 1) == 1;
    assert Lowered(u, name) == name;
  }

  /**
   * Constructors Foo in two packages a/p and b/p, and PFoo2: three different beans, implicitly named, of which the
   * second and the third share a variable.
   */
  lemma SharedVariable(u: Unicode, a: Provider, b: Provider, c: Provider, oa: Origin, ob: Origin, oc: Origin)
    requires Standard(u) && a.symbolID != b.symbolID && b.symbolID != c.symbolID && a.symbolID != c.symbolID
    requires a.name == "foo" && b.name == "foo" && c.name == "pFoo2"
    requires !oa.explicitName && !ob.explicitName && !oc.explicitName && oa.packageBase == "p" && ob.packageBase == "p"
    ensures var finals := FinalBases(u, [a, b, c], [oa, ob, oc]);
            VariableAt(finals, 1) == VariableAt(finals, 2) == "pFoo2"
  {
    hide *;
    NamedFoo(u, a, oa, 0);
    NamedFoo(u, b, ob, 1);
    NamedPFoo2(u, c, oc, 2);
    FooIsQualified(u, oa);
    FooIsQualified(u, ob);
    CountThree("foo", "pFoo2");
    var items, origins := [a, b, c], [oa, ob, oc];
    FinalsOf(u, items, origins, ["foo", "foo", "pFoo2"]);
    var finals := FinalBases(u, items, origins);
    assert finals == ["pFoo", "pFoo", "pFoo2"];
    ThirdMeetsSecond(finals);
  }

  lemma ThirdMeetsSecond(finals: seq<string>)
    requires finals == ["pFoo", "pFoo", "pFoo2"]
    ensures VariableAt(finals, 1) == VariableAt(finals, 2) == "pFoo2"
  {
    CountThree("pFoo", "pFoo2");
    hide Occurrences;
    assert finals[..2] == ["pFoo", "pFoo"] && finals[..3] == finals;
    assert Decimal.Itoa(2) == "2" && "pFoo" + "2" == "pFoo2";
  }

  lemma NamedFoo(u: Unicode, p: Provider, o: Origin, i: nat)
    requires Standard(u) && p.name == "foo" && !o.explicitName
    ensures Base(u, p, o, i) == "foo"
  {
    hide Base;
    StandsForItself(u, "foo");
    assert !IsReserved("foo");
    PlainBase(u, p, o, i);
  }

  lemma NamedPFoo2(u: Unicode, p: Provider, o: Origin, i: nat)
    requires Standard(u) && p.name == "pFoo2" && !o.explicitName
    ensures Base(u, p, o, i) == "pFoo2"
  {
    hide Base, KEYWORDS, IsReserved;
    EndsInDigit("pFoo2");
    assert IsIdentifier(u, "pFoo2");
    PlainBase(u, p, o, i);
  }

  lemma FinalsOf(u: Unicode, items: seq<Provider>, origins: seq<Origin>, bases: seq<string>)
    requires |items| == |origins| == |bases|
    requires forall i :: 0 <= i < |items| ==> Base(u, items[i], origins[i], i) == bases[i]
    ensures forall i :: 0 <= i < |items| ==>
              (FinalBases(u, items, origins)[i] ==
               if Occurrences(bases, bases[i]) > 1 then QualifiedBase(u, origins[i], bases[i]) else bases[i])
  {
    hide Base, QualifiedBase, Occurrences;
    assert Bases(u, items, origins) == bases;
  }

  lemma CountThree(a: string, b: string)
    requires a != b
    ensures Occurrences([a, a], a) == 2 && Occurrences([a, a, b], a) == 2 && Occurrences([a, a, b], b) == 1
  {
    assert [a, a, b][..2] == [a, a] && [a, a][..1] == [a] && [a][..0] == [];
    assert Occurrences([a], a) == 1 && Occurrences([a], b) == 0;
  }

  lemma FooIsQualified(u: Unicode, o: Origin)
    requires Standard(u) && o.packageBase == "p"
    ensures QualifiedBase(u, o, "foo") == "pFoo"
  {
    hide Local, Exported, Standard;
    PIsLocal(u);
    FooIsExported(u);
    assert "p" + "Foo" == "pFoo";
  }

  /** A lower-case word is neither re-cased nor, unless it is a keyword, replaced. */
  lemma StandsForItself(u: Unicode, word: string)
    requires Standard(u) && word != "" && word !in KEYWORDS && forall i :: 0 <= i < |word| ==> 'a' <= word[i] <= 'z'
    ensures IsIdentifier(u, word) && Lowered(u, word) == word
  {
    hide KEYWORDS;
    assert InitialismEnd(u, word, 1) == 1;
  }

  lemma PIsLocal(u: Unicode)
    requires Standard(u)
    ensures Local(u, "p", "pkg") == "p"
  {
    hide Lowered;
    StandsForItself(u, "p");
    assert !IsReserved("p");
  }

  lemma FooIsExported(u: Unicode)
    requires Standard(u)
    ensures Exported(u, "foo", "Bean") == "Foo"
  {
    assert IsIdentifier(u, "foo") && IsIdentifier(u, "Foo");
    hide IsIdentifier;
    assert "foo"[1..] == "oo" && [u.toUpper('f')] + "oo" == "Foo";
  }

  /**
   * Constructors Schema in two packages a/configuration and b/configuration: two different beans, implicitly named,
   * of which the first takes a name the generated code uses itself.
   */
  lemma ReservedVariable(u: Unicode, a: Provider, b: Provider, oa: Origin, ob: Origin)
    requires Standard(u) && a.symbolID != b.symbolID && a.name == "schema" && b.name == "schema"
    requires !oa.explicitName && !ob.explicitName
    requires oa.packageBase == "configuration" && ob.packageBase == "configuration"
    ensures VariableAt(FinalBases(u, [a, b], [oa, ob]), 0) == "configurationSchema"
    ensures IsReserved("configurationSchema")
  {
    ReservedSchema();
    hide *;
    NamedSchema(u, a, oa, 0);
    NamedSchema(u, b, ob, 1);
    SchemaIsQualified(u, oa);
    SchemaIsQualified(u, ob);
    CountThree("schema", "");
    var items, origins := [a, b], [oa, ob];
    FinalsOf(u, items, origins, ["schema", "schema"]);
    var finals := FinalBases(u, items, origins);
    assert finals == ["configurationSchema", "configurationSchema"];
    FirstKeepsItsBase(finals);
  }

  lemma ReservedSchema()
    ensures IsReserved("configurationSchema")
  {
  }

  lemma FirstKeepsItsBase(finals: seq<string>)
    requires finals != []
    ensures VariableAt(finals, 0) == finals[0]
  {
    var first := [finals[0]];
    assert finals[..1] == first && first[..0] == [] && Occurrences(first, finals[0]) == 1;
  }

  lemma NamedSchema(u: Unicode, p: Provider, o: Origin, i: nat)
    requires Standard(u) && p.name == "schema" && !o.explicitName
    ensures Base(u, p, o, i) == "schema"
  {
    hide Base;
    StandsForItself(u, "schema");
    assert !IsReserved("schema");
    PlainBase(u, p, o, i);
  }

  lemma SchemaIsQualified(u: Unicode, o: Origin)
    requires Standard(u) && o.packageBase == "configuration"
    ensures QualifiedBase(u, o, "schema") == "configurationSchema"
  {
    hide Local, Exported, Standard;
    ConfigurationIsLocal(u);
    SchemaIsExported(u);
    assert "configuration" + "Schema" == "configurationSchema";
  }

  lemma ConfigurationIsLocal(u: Unicode)
    requires Standard(u)
    ensures Local(u, "configuration", "pkg") == "configuration"
  {
    hide Lowered;
    StandsForItself(u, "configuration");
    assert !IsReserved("configuration");
  }

  lemma SchemaIsExported(u: Unicode)
    requires Standard(u)
    ensures Exported(u, "schema", "Bean") == "Schema"
  {
    assert IsIdentifier(u, "schema") && IsIdentifier(u, "Schema");
    hide IsIdentifier;
    assert "schema"[1..] == "chema" && [u.toUpper('s')] + "chema" == "Schema";
  }
}
