/** Go identifiers made from bean, symbol and package names (compiler/generate/naming.go). */
module Identifiers {
  /** The character classes and case mappings of package unicode. */
  datatype Unicode = Unicode(
    isLetter: char -> bool,
    isDigit: char -> bool,
    isUpper: char -> bool,
    isLower: char -> bool,
    toUpper: char -> char,
    toLower: char -> char)

  /** What they say of ASCII letters and digits; of other characters nothing is supposed. */
  ghost predicate Standard(u: Unicode) {
    && (forall c :: 'a' <= c <= 'z' ==> u.isLetter(c) && u.isLower(c) && !u.isUpper(c) && u.toLower(c) == c)
    && (forall c :: 'a' <= c <= 'z' ==> u.toUpper(c) == (c as int - 32) as char)
    && (forall c :: 'A' <= c <= 'Z' ==> u.isLetter(c) && u.isUpper(c) && !u.isLower(c) && u.toUpper(c) == c)
    && (forall c :: 'A' <= c <= 'Z' ==> u.toLower(c) == (c as int + 32) as char)
    && (forall c :: '0' <= c <= '9' ==> u.isDigit(c) && !u.isLetter(c) && !u.isUpper(c))
  }

  const KEYWORDS := {
    "break", "case", "chan", "const", "continue", "default", "defer", "else", "fallthrough", "for", "func", "go",
      "goto",
    "if", "import", "interface", "map", "package", "range", "return", "select", "struct", "switch", "type", "var"}

  const PREDECLARED := {
    "append", "cap", "clear", "close", "complex", "copy", "delete", "error", "false", "imag", "len", "make", "max",
    "min", "new", "nil", "panic", "print", "println", "real", "recover", "true"}

  const GENERATED := {
    "application", "authorizer", "configurationSchema", "configurationSnapshot", "ctx", "dependencies", "err",
    "httpObservers", "logger", "managementMetrics", "observers", "options"}

  /** Names the language and the generated code already use. */
  predicate IsReserved(name: string) { name in PREDECLARED || name in GENERATED }

  predicate IsPart(u: Unicode, c: char, first: bool) { u.isLetter(c) || c == '_' || (!first && u.isDigit(c)) }

  predicate IsIdentifier(u: Unicode, s: string) {
    s != "" && s !in KEYWORDS && forall i :: 0 <= i < |s| ==> IsPart(u, s[i], i == 0)
  }

  // ----- Joining words ---------------------------------------------------------------------------

  /** The letters and digits of s joined in camel case, and whether the next letter begins a new word. */
  function Joined(u: Unicode, s: string): (string, bool) {
    if s == "" then ("", false)
    else
      var (text, upperNext) := Joined(u, s[..|s|-1]);
      var c := s[|s|-1];
      if IsPart(u, c, text == "") then (text + [if upperNext then u.toUpper(c) else c], false) else (text, text != "")
  }

  function Normalized(u: Unicode, name: string, fallback: string): string {
    if IsIdentifier(u, name) then name
    else if IsIdentifier(u, Joined(u, name).0) then Joined(u, name).0
    else fallback
  }

  method NormalizeGeneratedIdentifier(u: Unicode, name: string, fallback: string) returns (r: string)
    ensures r == Normalized(u, name, fallback)
  {
    if IsIdentifier(u, name) { return name; }
    var text, upperNext := "", false;
    for i := 0 to |name|
      invariant (text, upperNext) == Joined(u, name[..i])
    {
      assert name[..i+1][..i] == name[..i];
      var c := name[i];
      if u.isLetter(c) || c == '_' || (text != "" && u.isDigit(c)) {
        if upperNext { c, upperNext := u.toUpper(c), false; }
        text := text + [c];
        continue;
      }
      upperNext := text != "";
    }
    assert name[..|name|] == name;
    if IsIdentifier(u, text) { return text; }
    return fallback;
  }

  lemma JoinedStep(u: Unicode, s: string, d: char)
    requires Joined(u, s).0 != ""
    ensures Joined(u, s + [d]) ==
            if IsPart(u, d, false) then (Joined(u, s).0 + [if Joined(u, s).1 then u.toUpper(d) else d], false)
            else (Joined(u, s).0, true)
  {
    assert (s + [d])[..|s + [d]|-1] == s;
  }

  lemma OneLetter(u: Unicode, c: char)
    requires IsPart(u, c, true)
    ensures Joined(u, [c]) == ([c], false)
  {
    assert [c][..0] == "" && "" + [c] == [c];
  }

  /** A separator starts a new word: what follows it is joined with its first letter in upper case. */
  lemma {:induction false} SeparatorStartsWord(u: Unicode, a: string, c: char, b: string)
    requires !IsPart(u, c, false) && b != "" && IsPart(u, b[0], true) && Joined(u, a).0 != ""
    ensures Joined(u, b).0 != "" && Joined(u, b).0[0] == b[0]
    ensures Joined(u, a + [c] + b).0 == Joined(u, a).0 + [u.toUpper(b[0])] + Joined(u, b).0[1..]
    ensures Joined(u, a + [c] + b).1 == Joined(u, b).1
  {
    hide Joined;
    JoinedStep(u, a, c);
    if |b| == 1 {
      assert b == [b[0]] && b[1..] == "";
      OneLetter(u, b[0]);
      JoinedStep(u, a + [c], b[0]);
    } else {
      var init, d := b[..|b|-1], b[|b|-1];
      assert b == init + [d] && a + [c] + b == a + [c] + init + [d];
      SeparatorStartsWord(u, a, c, init);
      JoinedStep(u, init, d);
      JoinedStep(u, a + [c] + init, d);
    }
  }

  // ----- Case ------------------------------------------------------------------------------------

  /** The leading run of capitals, less the one that begins the next word. */
  function InitialismEnd(u: Unicode, name: string, end: nat): (r: nat)
    requires end <= |name|
    ensures end <= r <= |name|
    ensures forall k :: end <= k < r ==> u.isUpper(name[k]) && !BeginsWord(u, name, k)
    ensures r < |name| ==> !u.isUpper(name[r]) || BeginsWord(u, name, r)
    decreases |name| - end
  {
    if end == |name| || !u.isUpper(name[end]) || BeginsWord(u, name, end) then end else InitialismEnd(u, name, end + 1)
  }

  predicate BeginsWord(u: Unicode, name: string, k: nat) { k + 1 < |name| && u.isLower(name[k+1]) }

  function Lowered(u: Unicode, name: string): (r: string)
    ensures |r| == |name|
  {
    if name == "" then ""
    else
      var end := InitialismEnd(u, name, 1);
      seq(|name|, i requires 0 <= i < |name| => if i < end then u.toLower(name[i]) else name[i])
  }

  method LowerGeneratedInitialism(u: Unicode, name: string) returns (r: string)
    ensures r == Lowered(u, name)
  {
    if |name| == 0 { return name; }
    var end := 1;
    while end < |name| && u.isUpper(name[end])
      invariant 1 <= end <= |name| && InitialismEnd(u, name, 1) == InitialismEnd(u, name, end)
    {
      if end + 1 < |name| && u.isLower(name[end+1]) { break; }
      end := end + 1;
    }
    r := name;
    for index := 0 to end
      invariant |r| == |name|
      invariant forall k :: 0 <= k < |name| ==> r[k] == if k < index then u.toLower(name[k]) else name[k]
    {
      r := r[index := u.toLower(name[index])];
    }
  }

  /** Capitals that a lower-case letter can be told from. */
  ghost predicate Capitals(u: Unicode, s: string) {
    forall k :: 0 <= k < |s| ==> u.isUpper(s[k]) && !u.isLower(s[k])
  }

  function LowerAll(u: Unicode, s: string): string { if s == "" then "" else [u.toLower(s[0])] + LowerAll(u, s[1..]) }

  /** What follows an initialism: nothing, a capitalized word, or no capital at all. */
  ghost predicate EndsInitialism(u: Unicode, caps: string, rest: string) {
    || rest == ""
    || (Capitals(u, rest[..1]) && |rest| > 1 && u.isLower(rest[1]))
    || (!u.isUpper(rest[0]) && (caps == "" || !u.isLower(rest[0])))
  }

  /** The first character and the capitals after it are lowered, and the word behind them stays as it is. */
  lemma InitialismLowered(u: Unicode, first: char, caps: string, rest: string)
    requires Capitals(u, caps) && EndsInitialism(u, caps, rest)
    ensures Lowered(u, [first] + caps + rest) == LowerAll(u, [first] + caps) + rest
  {
    var name := [first] + caps + rest;
    CapitalsPassed(u, name, caps, 1);
    hide InitialismEnd;
    LowerAllAt(u, [first] + caps);
    assert Lowered(u, name) == LowerAll(u, [first] + caps) + rest;
  }

  /** From any of the capitals on, the run ends behind the last of them. */
  lemma {:induction false} CapitalsPassed(u: Unicode, name: string, caps: string, end: nat)
    requires Capitals(u, caps) && 1 <= end <= |caps| + 1 <= |name| && name[1..|caps|+1] == caps
    requires EndsInitialism(u, caps, name[|caps|+1..])
    ensures InitialismEnd(u, name, end) == |caps| + 1
    decreases |caps| + 1 - end
  {
    var rest := name[|caps|+1..];
    assert rest != "" ==> rest[0] == name[|caps|+1];
    assert forall k :: 0 <= k < |caps| ==> name[k+1] == caps[k];
    if end <= |caps| {
      assert name[end] == caps[end-1];
      if end < |caps| { assert name[end+1] == caps[end]; }
      if rest != "" && Capitals(u, rest[..1]) { assert !u.isLower(rest[..1][0]); }
      CapitalsPassed(u, name, caps, end + 1);
    } else if rest != "" && Capitals(u, rest[..1]) && |rest| > 1 {
      assert rest[1] == name[end+1];
    }
  }

  lemma {:induction false} LowerAllAt(u: Unicode, s: string)
    ensures |LowerAll(u, s)| == |s| && forall k :: 0 <= k < |s| ==> LowerAll(u, s)[k] == u.toLower(s[k])
  {
    if s != "" { LowerAllAt(u, s[1..]); }
  }

  // ----- Local and exported identifiers ----------------------------------------------------------

  function Local(u: Unicode, name: string, fallback: string): string {
    var lowered := Lowered(u, Normalized(u, name, fallback));
    if !IsIdentifier(u, lowered) then fallback else if IsReserved(lowered) then lowered + "Bean" else lowered
  }

  method LocalGeneratedIdentifier(u: Unicode, name: string, fallback: string) returns (r: string)
    ensures r == Local(u, name, fallback)
  {
    r := NormalizeGeneratedIdentifier(u, name, fallback);
    r := LowerGeneratedInitialism(u, r);
    if !IsIdentifier(u, r) { return fallback; }
    if IsReserved(r) { return r + "Bean"; }
  }

  function Exported(u: Unicode, name: string, fallback: string): string {
    var normalized := Normalized(u, name, fallback);
    if normalized == "" then fallback
    else
      var upper := [u.toUpper(normalized[0])] + normalized[1..];
      if !IsIdentifier(u, upper) || !u.isUpper(upper[0]) then fallback else upper
  }

  method ExportedGeneratedIdentifier(u: Unicode, name: string, fallback: string) returns (r: string)
    ensures r == Exported(u, name, fallback)
  {
    r := NormalizeGeneratedIdentifier(u, name, fallback);
    if r == "" { return fallback; }
    r := [u.toUpper(r[0])] + r[1..];
    if !IsIdentifier(u, r) || !u.isUpper(r[0]) { return fallback; }
  }

  /** What becomes of an identifier: its leading capitals are lowered, unless that leaves a word already taken. */
  lemma LocalOfName(u: Unicode, name: string, fallback: string, first: char, caps: string, rest: string)
    requires IsIdentifier(u, name) && name == [first] + caps + rest
    requires Capitals(u, caps) && EndsInitialism(u, caps, rest)
    ensures var lowered := LowerAll(u, [first] + caps) + rest;
            && (IsIdentifier(u, lowered) && !IsReserved(lowered) ==> Local(u, name, fallback) == lowered)
            && (IsIdentifier(u, lowered) && IsReserved(lowered) ==> Local(u, name, fallback) == lowered + "Bean")
            && (!IsIdentifier(u, lowered) ==> Local(u, name, fallback) == fallback)
  {
    hide Lowered, LowerAll, KEYWORDS, PREDECLARED, GENERATED;
    InitialismLowered(u, first, caps, rest);
  }

  /** An exported identifier is the name with its first character in upper case. */
  lemma ExportedOfName(u: Unicode, name: string, first: char, rest: string)
    requires IsIdentifier(u, name) && name == [first] + rest
    ensures IsIdentifier(u, [u.toUpper(first)] + rest) && u.isUpper(u.toUpper(first)) ==>
              Exported(u, name, "Bean") == [u.toUpper(first)] + rest
  {
  }

  lemma BeanIsUnreserved(name: string)
    ensures name + "Bean" !in KEYWORDS && !IsReserved(name + "Bean")
  {
    var s := name + "Bean";
    assert s[|s|-4] == 'B';
    if s in KEYWORDS { KeywordIsNoBean(s); }
    if IsReserved(s) { ReservedIsNoBean(s); }
  }

  lemma KeywordIsNoBean(w: string)
    requires w in KEYWORDS
    ensures |w| < 4 || w[|w|-4] != 'B'
  {
  }

  lemma ReservedIsNoBean(w: string)
    requires IsReserved(w)
    ensures |w| < 4 || w[|w|-4] != 'B'
  {
  }

  lemma BeanIsIdentifier(u: Unicode, name: string)
    requires Standard(u) && IsIdentifier(u, name)
    ensures IsIdentifier(u, name + "Bean")
  {
    BeanIsUnreserved(name);
    hide KEYWORDS, IsReserved;
    var s := name + "Bean";
    forall i | 0 <= i < |s| ensures IsPart(u, s[i], i == 0) {
      if i >= |name| { assert s[i] in "Bean" && u.isLetter(s[i]); }
    }
  }

  /** Whatever the name, the result is an identifier the generated code may declare. */
  lemma LocalIsIdentifier(u: Unicode, name: string, fallback: string)
    requires Standard(u) && IsIdentifier(u, fallback) && !IsReserved(fallback)
    ensures IsIdentifier(u, Local(u, name, fallback)) && !IsReserved(Local(u, name, fallback))
  {
    var lowered := Lowered(u, Normalized(u, name, fallback));
    if IsIdentifier(u, lowered) {
      BeanIsIdentifier(u, lowered);
      BeanIsUnreserved(lowered);
    }
  }

  lemma ExportedIsIdentifier(u: Unicode, name: string)
    requires Standard(u)
    ensures IsIdentifier(u, Exported(u, name, "Bean")) && u.isUpper(Exported(u, name, "Bean")[0])
  {
    assert IsIdentifier(u, "Bean");
  }
}
