/** The target identifier that two compiler phases derive independently (compiler/targetid/targetid.go). */
module TargetId {
  predicate IsLetter(c: char) { 'a' <= c <= 'z' }

  predicate IsDigit(c: char) { '0' <= c <= '9' }

  /** A rune mapping that lowers ASCII letters and keeps other ASCII; what it does beyond ASCII is left open. */
  ghost predicate LowersAscii(lower: char -> char) {
    forall c: char :: c as int < 128 ==> lower(c) == (if 'A' <= c <= 'Z' then c + 32 as char else c)
  }

  function Lowered(lower: char -> char, s: string): (r: string)
    ensures |r| == |s|
  {
    seq(|s|, i requires 0 <= i < |s| => lower(s[i]))
  }

  // ----- What is kept ----------------------------------------------------------------------------

  /**
   * One character more: letters, and digits after the first letter, are kept; a run of others becomes one
   * underscore.
   */
  function Extend(id: string, c: char): string {
    if IsLetter(c) || (IsDigit(c) && id != "") then id + [c]
    else if id != "" && id[|id|-1] != '_' then id + "_"
    else id
  }

  function Scan(s: string): string { if s == "" then "" else Extend(Scan(s[..|s|-1]), s[|s|-1]) }

  function TrimSuffix(s: string): string { if s != "" && s[|s|-1] == '_' then s[..|s|-1] else s }

  function DefaultOf(lower: char -> char, name: string): string {
    var id := TrimSuffix(Scan(Lowered(lower, name)));
    if id == "" then "application" else id
  }

  method Default(lower: char -> char, name: string) returns (id: string)
    ensures id == DefaultOf(lower, name)
  {
    var lowered := Lowered(lower, name);
    var result := "";
    for i := 0 to |lowered|
      invariant result == Scan(lowered[..i])
    {
      var character := lowered[i];
      assert lowered[..i+1][..i] == lowered[..i];
      if IsLetter(character) || (IsDigit(character) && |result| != 0) {
        result := result + [character];
      } else if |result| != 0 && result[|result|-1] != '_' {
        result := result + "_";
      }
    }
    assert lowered[..|lowered|] == lowered;
    id := TrimSuffix(result);
    if id == "" { id := "application"; }
  }

  // ----- Shape -----------------------------------------------------------------------------------

  /** A letter first, then letters, digits and single underscores. */
  ghost predicate Shaped(id: string) {
    && (id != "" ==> IsLetter(id[0]))
    && (forall i :: 0 <= i < |id| ==> IsLetter(id[i]) || IsDigit(id[i]) || id[i] == '_')
    && (forall i, j :: 0 <= i && j == i + 1 && j < |id| ==> id[i] != '_' || id[j] != '_')
  }

  ghost predicate IsTargetId(id: string) { id != "" && Shaped(id) && id[|id|-1] != '_' }

  lemma {:induction false} ScanIsShaped(s: string)
    ensures Shaped(Scan(s))
  {
    if s != "" { ScanIsShaped(s[..|s|-1]); }
  }

  lemma DefaultIsTargetId(lower: char -> char, name: string)
    ensures IsTargetId(DefaultOf(lower, name))
  {
    var scanned := Scan(Lowered(lower, name));
    ScanIsShaped(scanned);
    ScanIsShaped(Lowered(lower, name));
    if scanned != "" && scanned[|scanned|-1] == '_' {
      var id := scanned[..|scanned|-1];
      assert forall i :: 0 <= i < |id| ==> id[i] == scanned[i];
    }
  }

  /** Scanning keeps a well-shaped identifier. */
  lemma {:induction false} ScanKeepsShaped(id: string)
    requires Shaped(id)
    ensures Scan(id) == id
  {
    if id != "" {
      var init := id[..|id|-1];
      assert forall i :: 0 <= i < |init| ==> init[i] == id[i];
      ScanKeepsShaped(init);
      assert id == init + [id[|id|-1]];
    }
  }

  /** Applying it twice changes nothing. */
  lemma DefaultIsIdempotent(lower: char -> char, name: string)
    requires LowersAscii(lower)
    ensures DefaultOf(lower, DefaultOf(lower, name)) == DefaultOf(lower, name)
  {
    var id := DefaultOf(lower, name);
    DefaultIsTargetId(lower, name);
    forall i | 0 <= i < |id| ensures lower(id[i]) == id[i] {}
    assert Lowered(lower, id) == id;
    ScanKeepsShaped(id);
  }

  /** The letters and digits from the first letter on, in order, and nothing else. */
  function Kept(s: string): string {
    if s == "" then ""
    else
      var before := Kept(s[..|s|-1]);
      var c := s[|s|-1];
      if IsLetter(c) || (IsDigit(c) && before != "") then before + [c] else before
  }

  lemma {:induction false} UnderscoresAside(s: string)
    ensures Kept(Scan(s)) == Kept(s) && (Scan(s) == "" <==> Kept(s) == "")
  {
    if s != "" {
      var init, c := s[..|s|-1], s[|s|-1];
      UnderscoresAside(init);
      var before := Scan(init);
      assert (before + [c])[..|before|] == before && (before + "_")[..|before|] == before;
    }
  }

  lemma DefaultKeepsAlphanumerics(lower: char -> char, name: string)
    ensures Kept(Lowered(lower, name)) != "" ==> Kept(DefaultOf(lower, name)) == Kept(Lowered(lower, name))
    ensures Kept(Lowered(lower, name)) == "" ==> DefaultOf(lower, name) == "application"
  {
    UnderscoresAside(Lowered(lower, name));
    ScanIsShaped(Lowered(lower, name));
  }

  // ----- Words -----------------------------------------------------------------------------------

  predicate IsWordChar(c: char) { IsLetter(c) || IsDigit(c) }

  /** Words of letters and digits, each followed by a gap of other characters; only the last gap may be empty. */
  ghost predicate AreWords(words: seq<string>, gaps: seq<string>) {
    && |words| == |gaps|
    && (forall i :: 0 <= i < |words| ==> words[i] != "" && forall k :: 0 <= k < |words[i]| ==> IsWordChar(words[i][k]))
    && (forall i :: 0 <= i < |gaps| ==> forall k :: 0 <= k < |gaps[i]| ==> !IsWordChar(gaps[i][k]))
    && (forall i :: 0 <= i < |gaps| - 1 ==> gaps[i] != "")
  }

  function Spread(words: seq<string>, gaps: seq<string>): string
    requires |words| == |gaps|
  {
    if words == [] then "" else words[0] + gaps[0] + Spread(words[1..], gaps[1..])
  }

  function Underscored(words: seq<string>): string {
    if words == [] then "" else if |words| == 1 then words[0] else words[0] + "_" + Underscored(words[1..])
  }

  /** Scanning on from what has been kept so far. */
  function ScanOn(id: string, s: string): string
    decreases |s|
  {
    if s == "" then id else ScanOn(Extend(id, s[0]), s[1..])
  }

  lemma {:induction false} ScanOnAppend(id: string, s: string, t: string)
    ensures ScanOn(id, s + t) == ScanOn(ScanOn(id, s), t)
    decreases |s|
  {
    if s == "" {
      assert s + t == t;
    } else {
      assert (s + t)[0] == s[0] && (s + t)[1..] == s[1..] + t;
      ScanOnAppend(Extend(id, s[0]), s[1..], t);
    }
  }

  lemma {:induction false} ScanIsScanOn(s: string)
    ensures Scan(s) == ScanOn("", s)
  {
    if s != "" {
      var init, last := s[..|s|-1], [s[|s|-1]];
      ScanIsScanOn(init);
      assert s == init + last && last[1..] == "";
      ScanOnAppend("", init, last);
      assert ScanOn(Scan(init), last) == ScanOn(Extend(Scan(init), last[0]), last[1..]);
    }
  }

  lemma {:induction false} ScanWord(id: string, word: string)
    requires forall k :: 0 <= k < |word| ==> IsWordChar(word[k])
    requires id != "" || (word != "" && IsLetter(word[0]))
    ensures ScanOn(id, word) == id + word
    decreases |word|
  {
    if word == "" {
      assert id + word == id;
    } else {
      ScanWord(id + [word[0]], word[1..]);
      assert id + [word[0]] + word[1..] == id + word;
    }
  }

  lemma {:induction false} ScanGap(id: string, gap: string)
    requires id != "" && forall k :: 0 <= k < |gap| ==> !IsWordChar(gap[k])
    ensures ScanOn(id, gap) == if gap == "" || id[|id|-1] == '_' then id else id + "_"
    decreases |gap|
  {
    if gap != "" { ScanGap(Extend(id, gap[0]), gap[1..]); }
  }

  lemma {:induction false} ScanLead(lead: string)
    requires forall k :: 0 <= k < |lead| ==> !IsLetter(lead[k])
    ensures ScanOn("", lead) == ""
  {
    if lead != "" { ScanLead(lead[1..]); }
  }

  /** One word and the gap behind it, scanned in front of the rest. */
  lemma ScanWordAndGap(id: string, word: string, gap: string, rest: string)
    requires word != "" && (forall k :: 0 <= k < |word| ==> IsWordChar(word[k]))
    requires (forall k :: 0 <= k < |gap| ==> !IsWordChar(gap[k])) && (id == "" ==> IsLetter(word[0]))
    ensures ScanOn(id, word + gap + rest) == ScanOn(if gap == "" then id + word else id + word + "_", rest)
  {
    assert word + gap + rest == word + (gap + rest);
    ScanOnAppend(id, word, gap + rest);
    ScanOnAppend(id + word, gap, rest);
    ScanWord(id, word);
    ScanGap(id + word, gap);
    assert (id + word)[|id + word| - 1] == word[|word| - 1];
  }

  lemma TrimsUnderscore(id: string, word: string)
    requires word != "" && word[|word|-1] != '_'
    ensures TrimSuffix(id + word) == id + word && TrimSuffix(id + word + "_") == id + word
  {
    assert (id + word)[|id + word| - 1] == word[|word| - 1];
    assert (id + word + "_")[..|id + word|] == id + word;
  }

  lemma {:induction false} ScanWords(id: string, words: seq<string>, gaps: seq<string>)
    requires AreWords(words, gaps) && words != [] && (id == "" ==> IsLetter(words[0][0]))
    ensures TrimSuffix(ScanOn(id, Spread(words, gaps))) == id + Underscored(words)
    decreases |words|
  {
    hide ScanOn, TrimSuffix;
    var word, gap := words[0], gaps[0];
    ScanWordAndGap(id, word, gap, Spread(words[1..], gaps[1..]));
    if |words| == 1 {
      NothingLeft(if gap == "" then id + word else id + word + "_");
      assert IsWordChar(word[|word|-1]);
      TrimsUnderscore(id, word);
    } else {
      ScanWords(id + word + "_", words[1..], gaps[1..]);
      assert id + word + "_" + Underscored(words[1..]) == id + (word + "_" + Underscored(words[1..]));
    }
  }

  lemma NothingLeft(id: string)
    ensures ScanOn(id, "") == id
  {
  }

  /**
   * The identifier is the name's words joined by single underscores: what stands between two words becomes one
   * underscore, nothing else does, and what stands before the first letter or after the last word is dropped.
   */
  lemma WordsAreJoined(lower: char -> char, name: string, lead: string, words: seq<string>, gaps: seq<string>)
    requires AreWords(words, gaps) && Lowered(lower, name) == lead + Spread(words, gaps)
    requires (forall k :: 0 <= k < |lead| ==> !IsLetter(lead[k])) && (words != [] ==> IsLetter(words[0][0]))
    ensures DefaultOf(lower, name) == if words == [] then "application" else Underscored(words)
  {
    hide Lowered;
    ScanIsScanOn(Lowered(lower, name));
    ScanOnAppend("", lead, Spread(words, gaps));
    ScanLead(lead);
    if words != [] {
      ScanWords("", words, gaps);
      assert "" + Underscored(words) == Underscored(words);
      assert |Underscored(words)| >= |words[0]|;
    }
  }

  // ----- Two phases, one identifier --------------------------------------------------------------

  function LastSlash(s: string): (i: int)
    ensures -1 <= i < |s| && (i >= 0 ==> s[i] == '/') && forall j :: i < j < |s| ==> s[j] != '/'
  {
    if s == "" then -1 else if s[|s|-1] == '/' then |s| - 1 else LastSlash(s[..|s|-1])
  }

  function StripSlashes(s: string): string { if s != "" && s[|s|-1] == '/' then StripSlashes(s[..|s|-1]) else s }

  /** The last element of a slash-separated path. */
  function Base(path: string): (b: string)
    ensures b != "" && (b != "/" ==> '/' !in b)
  {
    if path == "" then "."
    else
      var stripped := StripSlashes(path);
      var last := stripped[LastSlash(stripped)+1..];
      if last == "" then "/" else last
  }

  /** The name of a package-main application: the path's last element with an upper-case first letter. */
  function ApplicationTargetName(path: string): string {
    var name := Base(path);
    if name == "" || name == "." || name == "/" then "application"
    else if IsLetter(name[0]) then [name[0] - 32 as char] + name[1..]
    else name
  }

  ghost predicate AllSlashes(s: string) { forall i :: 0 <= i < |s| ==> s[i] == '/' }

  lemma {:induction false} SlashesStripped(s: string, slashes: string)
    requires AllSlashes(slashes) && (s == "" || s[|s|-1] != '/')
    ensures StripSlashes(s + slashes) == s
    decreases |slashes|
  {
    if slashes == "" {
      assert s + slashes == s;
    } else {
      var shorter := slashes[..|slashes|-1];
      SlashesStripped(s, shorter);
      assert (s + slashes)[..|s + slashes|-1] == s + shorter;
    }
  }

  lemma {:induction false} LastSlashAt(dir: string, name: string)
    requires '/' !in name
    ensures LastSlash(dir + "/" + name) == |dir| && LastSlash(name) == -1
    decreases |name|
  {
    var s := dir + "/" + name;
    if name == "" {
      assert s[|s|-1] == '/';
    } else {
      var init, last := name[..|name|-1], name[|name|-1];
      LastSlashAt(dir, init);
      assert name == init + [last] && last in name && s[..|s|-1] == dir + "/" + init && s[|s|-1] == last;
    }
  }

  /** The last element of a path is what stands behind its last slash, trailing slashes aside. */
  lemma BaseIsLastElement(dir: string, name: string, slashes: string)
    requires name != "" && '/' !in name && AllSlashes(slashes)
    ensures Base(dir + "/" + name + slashes) == name && Base(name + slashes) == name
    ensures Base(slashes) == if slashes == "" then "." else "/"
  {
    hide StripSlashes, LastSlash;
    assert name[|name|-1] in name;
    var s := dir + "/" + name;
    assert s[|s|-1] == name[|name|-1];
    SlashesStripped(s, slashes);
    SlashesStripped(name, slashes);
    SlashesStripped("", slashes);
    LastSlashAt(dir, name);
    assert "" + slashes == slashes && s[|dir|+1..] == name && name[0..] == name;
  }

  /** A name is its path's last element with a capital in front where that begins with a letter. */
  lemma NameCapitalizes(path: string)
    ensures var base, name := Base(path), ApplicationTargetName(path);
            if base in {".", "/"} then name == "application"
            else |name| == |base| && name[1..] == base[1..]
                 && (if 'a' <= base[0] <= 'z' then name[0] as int == base[0] as int - 32 else name[0] == base[0])
  {
    hide Base;
  }

  /** Generation, from the application's name, and the entrypoint pass, from the path, arrive at the same identifier. */
  lemma PhasesAgree(lower: char -> char, path: string)
    requires LowersAscii(lower)
    ensures DefaultOf(lower, ApplicationTargetName(path)) == DefaultOf(lower, Base(path))
  {
    hide Base, DefaultOf, LowersAscii;
    var base := Base(path);
    if base == "." || base == "/" {
      NothingKept(lower, base);
      ApplicationIsFixed(lower);
    } else if IsLetter(base[0]) {
      CapitalLowers(lower, base);
    }
  }

  lemma CapitalLowers(lower: char -> char, base: string)
    requires LowersAscii(lower) && base != "" && IsLetter(base[0])
    ensures DefaultOf(lower, [base[0] - 32 as char] + base[1..]) == DefaultOf(lower, base)
  {
    var name := [base[0] - 32 as char] + base[1..];
    assert lower(name[0]) == base[0] == lower(base[0]);
    assert Lowered(lower, name) == Lowered(lower, base);
  }

  lemma NothingKept(lower: char -> char, base: string)
    requires LowersAscii(lower) && (base == "." || base == "/")
    ensures DefaultOf(lower, base) == "application"
  {
    var lowered := Lowered(lower, base);
    assert lowered == base;
    assert lowered[..0] == "" && Scan("") == "";
    assert Scan(lowered) == Extend("", lowered[0]);
  }

  lemma ApplicationIsFixed(lower: char -> char)
    requires LowersAscii(lower)
    ensures DefaultOf(lower, "application") == "application"
  {
    assert Lowered(lower, "application") == "application";
    ScanKeepsShaped("application");
  }
}
