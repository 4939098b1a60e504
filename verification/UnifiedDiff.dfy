/**
 * The preview's unified diff, read back by an independent reader (compiler/annotationinstall/install.go:
 * moduleDiff).
 */
module UnifiedDiff {
  import opened Catalog
  import opened ModuleFiles
  import opened TextLines
  import Decimal
  import Sorting
  import StringOrder

  const MARK := "\\ No newline at end of file\n"

  // ----- What a unified diff means ---------------------------------------------------------------

  datatype Op = Keep(line: string) | Remove(line: string) | Add(line: string)

  datatype Patch = Patch(
    oldName: string, newName: string, oldStart: nat, oldCount: nat, newStart: nat, newCount: nat, ops: seq<Op>)

  function OldSide(ops: seq<Op>): seq<string> {
    if ops == [] then [] else (if ops[0].Add? then [] else [ops[0].line]) + OldSide(ops[1..])
  }

  function NewSide(ops: seq<Op>): seq<string> {
    if ops == [] then [] else (if ops[0].Remove? then [] else [ops[0].line]) + NewSide(ops[1..])
  }

  /** An empty range is given by the line before it, any other by its first line. */
  function Position(start: nat, count: nat): int { if count == 0 then start else start - 1 }

  function Replace(content: string, at: int, from: seq<string>, to: seq<string>): Option<string> {
    var lines := Lines(content);
    if 0 <= at && at + |from| <= |lines| && lines[at..at+|from|] == from
    then Some(Join(lines[..at] + to + lines[at+|from|..]))
    else None
  }

  /** Applies a patch: both ranges must name the place where its old lines stand. */
  function Apply(p: Patch, content: string): Option<string> {
    var at := Position(p.oldStart, p.oldCount);
    if p.oldCount == |OldSide(p.ops)| && p.newCount == |NewSide(p.ops)| && Position(p.newStart, p.newCount) == at
    then Replace(content, at, OldSide(p.ops), NewSide(p.ops))
    else None
  }

  function Reverse(p: Patch): Patch {
    Patch(p.newName, p.oldName, p.newStart, p.newCount, p.oldStart, p.oldCount,
          seq(|p.ops|, i requires 0 <= i < |p.ops| =>
            match p.ops[i] case Keep(line) => Keep(line) case Remove(line) => Add(line) case Add(line) => Remove(line)))
  }

  // ----- Reading a diff --------------------------------------------------------------------------

  function Strip(s: string, prefix: string): Option<string> { if prefix <= s then Some(s[|prefix|..]) else None }

  function DigitCount(s: string): (n: nat)
    ensures n <= |s| && forall i :: 0 <= i < n ==> Decimal.IsDigit(s[i])
  {
    if s != "" && Decimal.IsDigit(s[0]) then 1 + DigitCount(s[1..]) else 0
  }

  function ReadNumber(s: string): Option<(nat, string)> {
    var n := DigitCount(s);
    if n == 0 then None else Some((Decimal.Atoi(s[..n]), s[n..]))
  }

  function ReadRange(s: string): Option<((nat, nat), string)> {
    var start := ReadNumber(s);
    if start.None? then None else
      var rest := Strip(start.value.1, ",");
      if rest.None? then None else
        var count := ReadNumber(rest.value);
        if count.None? then None else Some(((start.value.0, count.value.0), count.value.1))
  }

  function ReadHeader(line: string): Option<((nat, nat), (nat, nat))> {
    var s := Strip(line, "@@ -");
    if s.None? then None else
      var before := ReadRange(s.value);
      if before.None? then None else
        var t := Strip(before.value.1, " +");
        if t.None? then None else
          var after := ReadRange(t.value);
          if after.None? || after.value.1 != " @@\n" then None else Some((before.value.0, after.value.0))
  }

  function ReadName(line: string, prefix: string): Option<string> {
    var s := Strip(line, prefix);
    if s.None? || s.value == "" then None else Some(s.value[..|s.value|-1])
  }

  function OpOf(sign: char, line: string): Option<Op> {
    match sign
    case ' ' => Some(Keep(line))
    case '-' => Some(Remove(line))
    case '+' => Some(Add(line))
    case _ => None
  }

  /** Reads operations until both counts are used up; a marker takes the newline off the line before it. */
  function ReadOps(lines: seq<string>, oldCount: nat, newCount: nat): (r: Option<(seq<Op>, seq<string>)>)
    ensures r.Some? ==> |r.value.1| <= |lines|
    decreases |lines|
  {
    if oldCount == 0 && newCount == 0 then Some(([], lines))
    else if lines == [] || |lines[0]| < 2 then None
    else
      var marked := |lines| > 1 && lines[1] == MARK;
      var op := OpOf(lines[0][0], if marked then lines[0][1..|lines[0]|-1] else lines[0][1..]);
      if op.None? || (!op.value.Add? && oldCount == 0) || (!op.value.Remove? && newCount == 0) then None else
        var rest := ReadOps(if marked then lines[2..] else lines[1..],
                            if op.value.Add? then oldCount else oldCount - 1,
                            if op.value.Remove? then newCount else newCount - 1);
        if rest.None? then None else Some(([op.value] + rest.value.0, rest.value.1))
  }

  /** Reads the patch of one file. */
  function ReadPatch(lines: seq<string>): (r: Option<(Patch, seq<string>)>)
    ensures r.Some? ==> |r.value.1| < |lines|
  {
    if |lines| < 3 then None else
      var oldName, newName, header := ReadName(lines[0], "--- "), ReadName(lines[1], "+++ "), ReadHeader(lines[2]);
      if oldName.None? || newName.None? || header.None? then None else
        var (before, after) := header.value;
        var body := ReadOps(lines[3..], before.1, after.1);
        if body.None? then None
        else Some((Patch(oldName.value, newName.value, before.0, before.1, after.0, after.1, body.value.0),
                   body.value.1))
  }

  /** Reads the patches of a whole diff. */
  function ReadPatches(lines: seq<string>): Option<seq<Patch>>
    decreases |lines|
  {
    if lines == [] then Some([]) else
      var first := ReadPatch(lines);
      if first.None? then None else
        var rest := ReadPatches(first.value.1);
        if rest.None? then None else Some([first.value.0] + rest.value)
  }

  // ----- Printing --------------------------------------------------------------------------------

  /** The printed lines of one side of a hunk. */
  function BodyLines(sign: char, lines: seq<string>): seq<string> {
    if lines == [] then []
    else (if Complete(lines[0]) then [[sign] + lines[0]]
          else [[sign] + lines[0] + "\n", MARK]) + BodyLines(sign, lines[1..])
  }

  function RangeText(start: nat, count: nat): string { Decimal.Itoa(start) + "," + Decimal.Itoa(count) }

  function HeaderText(oldStart: nat, oldCount: nat, newStart: nat, newCount: nat): string {
    "@@ -" + RangeText(oldStart, oldCount) + " +" + RangeText(newStart, newCount) + " @@\n"
  }

  function UnifiedRangeStart(prefix: nat, count: nat): (start: nat)
    ensures Position(start, count) == prefix
  {
    if count == 0 then prefix else prefix + 1
  }

  /** The lines of the printed file diff. */
  ghost function FileLines(oldName: string, newName: string, prefix: nat, removed: seq<string>,
                           added: seq<string>): seq<string> {
    ["--- " + oldName + "\n", "+++ " + newName + "\n",
     HeaderText(UnifiedRangeStart(prefix, |removed|), |removed|, UnifiedRangeStart(prefix, |added|), |added|)]
    + BodyLines('-', removed) + BodyLines('+', added)
  }

  // ----- Printed numbers and headers read back ---------------------------------------------------

  lemma {:induction false} DigitsEnd(digits: string, rest: string)
    requires forall i :: 0 <= i < |digits| ==> Decimal.IsDigit(digits[i])
    requires rest == "" || !Decimal.IsDigit(rest[0])
    ensures DigitCount(digits + rest) == |digits|
  {
    if digits == "" {
      assert digits + rest == rest;
    } else {
      DigitsEnd(digits[1..], rest);
      assert (digits + rest)[1..] == digits[1..] + rest;
    }
  }

  lemma NumberReadsBack(n: nat, rest: string)
    requires rest == "" || !Decimal.IsDigit(rest[0])
    ensures ReadNumber(Decimal.Itoa(n) + rest) == Some((n, rest))
  {
    var digits := Decimal.Itoa(n);
    DigitsEnd(digits, rest);
    Decimal.AtoiItoa(n);
    assert (digits + rest)[..|digits|] == digits && (digits + rest)[|digits|..] == rest;
  }

  lemma StripReadsBack(prefix: string, rest: string)
    ensures Strip(prefix + rest, prefix) == Some(rest)
  {
  }

  lemma RangeReadsBack(start: nat, count: nat, rest: string)
    requires rest == "" || !Decimal.IsDigit(rest[0])
    ensures ReadRange(RangeText(start, count) + rest) == Some(((start, count), rest))
  {
    var tail := Decimal.Itoa(count) + rest;
    assert RangeText(start, count) + rest == Decimal.Itoa(start) + ("," + tail);
    NumberReadsBack(start, "," + tail);
    StripReadsBack(",", tail);
    NumberReadsBack(count, rest);
  }

  lemma HeaderReadsBack(oldStart: nat, oldCount: nat, newStart: nat, newCount: nat)
    ensures ReadHeader(HeaderText(oldStart, oldCount, newStart, newCount))
            == Some(((oldStart, oldCount), (newStart, newCount)))
  {
    hide ReadRange, RangeText;
    var after := RangeText(newStart, newCount) + " @@\n";
    var before := RangeText(oldStart, oldCount) + (" +" + after);
    assert HeaderText(oldStart, oldCount, newStart, newCount) == "@@ -" + before;
    StripReadsBack("@@ -", before);
    RangeReadsBack(oldStart, oldCount, " +" + after);
    StripReadsBack(" +", after);
    RangeReadsBack(newStart, newCount, " @@\n");
  }

  lemma NameReadsBack(name: string, prefix: string)
    ensures ReadName(prefix + name + "\n", prefix) == Some(name)
  {
    assert prefix + name + "\n" == prefix + (name + "\n");
    StripReadsBack(prefix, name + "\n");
  }

  // ----- Printed bodies read back ----------------------------------------------------------------

  function Removes(lines: seq<string>): (ops: seq<Op>)
    ensures |ops| == |lines|
  {
    seq(|lines|, i requires 0 <= i < |lines| => Remove(lines[i]))
  }

  function Adds(lines: seq<string>): (ops: seq<Op>)
    ensures |ops| == |lines|
  {
    seq(|lines|, i requires 0 <= i < |lines| => Add(lines[i]))
  }

  ghost predicate AllLines(lines: seq<string>) { forall i :: 0 <= i < |lines| ==> IsLine(lines[i]) }

  ghost predicate Unmarked(rest: seq<string>) { rest != [] ==> rest[0] != MARK }

  lemma OneLineReadsBack(sign: char, line: string, rest: seq<string>, oldCount: nat, newCount: nat)
    requires IsLine(line) && (sign == '-' || sign == '+') && Unmarked(rest)
    requires if sign == '-' then oldCount > 0 else newCount > 0
    ensures var op := if sign == '-' then Remove(line) else Add(line);
            var after := if sign == '-' then ReadOps(rest, oldCount - 1, newCount)
                         else ReadOps(rest, oldCount, newCount - 1);
            ReadOps(BodyLines(sign, [line]) + rest, oldCount, newCount)
            == (if after.None? then None else Some(([op] + after.value.0, after.value.1)))
  {
    var printed := BodyLines(sign, [line]);
    assert [line][1..] == [] && BodyLines(sign, []) == [];
    if Complete(line) {
      assert printed == [[sign] + line];
      assert (printed + rest)[1..] == rest && (printed + rest)[0] == [sign] + line;
    } else {
      assert printed == [[sign] + line + "\n", MARK];
      assert (printed + rest)[2..] == rest && (printed + rest)[0] == [sign] + line + "\n";
      assert ([sign] + line + "\n")[1..|line|+1] == line;
    }
  }

  lemma BodyFirst(sign: char, lines: seq<string>)
    requires lines != []
    ensures BodyLines(sign, lines) == BodyLines(sign, [lines[0]]) + BodyLines(sign, lines[1..])
  {
    assert [lines[0]][1..] == [] && BodyLines(sign, []) == [];
  }

  lemma SignedIsUnmarked(sign: char, lines: seq<string>, rest: seq<string>)
    requires (sign == '-' || sign == '+') && Unmarked(rest)
    ensures Unmarked(BodyLines(sign, lines) + rest)
  {
    if lines == [] {
      assert BodyLines(sign, lines) + rest == rest;
    } else {
      assert (BodyLines(sign, lines) + rest)[0][0] == sign && MARK[0] == '\\';
    }
  }

  lemma NothingToRead(sign: char, rest: seq<string>)
    ensures BodyLines(sign, []) + rest == rest && ReadOps(rest, 0, 0) == Some(([], rest))
  {
  }

  lemma {:induction false} AddedReadsBack(lines: seq<string>, rest: seq<string>)
    requires AllLines(lines) && Unmarked(rest)
    ensures ReadOps(BodyLines('+', lines) + rest, 0, |lines|) == Some((Adds(lines), rest))
    decreases |lines|
  {
    hide ReadOps, BodyLines, Unmarked, IsLine;
    if lines == [] {
      NothingToRead('+', rest);
    } else {
      var more := BodyLines('+', lines[1..]) + rest;
      AddedReadsBack(lines[1..], rest);
      BodyFirst('+', lines);
      SignedIsUnmarked('+', lines[1..], rest);
      OneLineReadsBack('+', lines[0], more, 0, |lines|);
      Regroup(BodyLines('+', [lines[0]]), BodyLines('+', lines[1..]), rest);
      assert Adds(lines) == [Add(lines[0])] + Adds(lines[1..]);
    }
  }

  lemma {:induction false} BodyReadsBack(removed: seq<string>, added: seq<string>, rest: seq<string>)
    requires AllLines(removed) && AllLines(added) && Unmarked(rest)
    ensures ReadOps(BodyLines('-', removed) + (BodyLines('+', added) + rest), |removed|, |added|)
            == Some((Removes(removed) + Adds(added), rest))
    decreases |removed|
  {
    hide ReadOps, BodyLines, Unmarked, IsLine;
    var after := BodyLines('+', added) + rest;
    if removed == [] {
      AddedReadsBack(added, rest);
      NothingToRead('-', after);
      assert Removes(removed) + Adds(added) == Adds(added);
    } else {
      var more := BodyLines('-', removed[1..]) + after;
      BodyReadsBack(removed[1..], added, rest);
      BodyFirst('-', removed);
      SignedIsUnmarked('+', added, rest);
      SignedIsUnmarked('-', removed[1..], after);
      OneLineReadsBack('-', removed[0], more, |removed|, |added|);
      Regroup(BodyLines('-', [removed[0]]), BodyLines('-', removed[1..]), after);
      assert Removes(removed) + Adds(added) == [Remove(removed[0])] + (Removes(removed[1..]) + Adds(added));
    }
  }

  ghost function PatchOf(oldName: string, newName: string, prefix: nat, removed: seq<string>,
                         added: seq<string>): Patch {
    Patch(oldName, newName, UnifiedRangeStart(prefix, |removed|), |removed|, UnifiedRangeStart(prefix, |added|),
          |added|,
          Removes(removed) + Adds(added))
  }

  lemma FileReadsBack(oldName: string, newName: string, prefix: nat, removed: seq<string>, added: seq<string>,
                      rest: seq<string>)
    requires AllLines(removed) && AllLines(added) && Unmarked(rest)
    ensures ReadPatch(FileLines(oldName, newName, prefix, removed, added) + rest)
            == Some((PatchOf(oldName, newName, prefix, removed, added), rest))
  {
    hide ReadOps, ReadHeader, HeaderText, ReadName, BodyLines, Unmarked;
    var lines := FileLines(oldName, newName, prefix, removed, added) + rest;
    NameReadsBack(oldName, "--- ");
    NameReadsBack(newName, "+++ ");
    HeaderReadsBack(UnifiedRangeStart(prefix, |removed|), |removed|, UnifiedRangeStart(prefix, |added|), |added|);
    BodyReadsBack(removed, added, rest);
    assert lines[3..] == BodyLines('-', removed) + (BodyLines('+', added) + rest);
  }

  // ----- Applying what was read ------------------------------------------------------------------

  lemma {:induction false} OldSideAppends(a: seq<Op>, b: seq<Op>)
    ensures OldSide(a + b) == OldSide(a) + OldSide(b)
  {
    if a == [] {
      assert a + b == b;
    } else {
      OldSideAppends(a[1..], b);
      assert (a + b)[0] == a[0] && (a + b)[1..] == a[1..] + b;
      Regroup(if a[0].Add? then [] else [a[0].line], OldSide(a[1..]), OldSide(b));
    }
  }

  lemma {:induction false} NewSideAppends(a: seq<Op>, b: seq<Op>)
    ensures NewSide(a + b) == NewSide(a) + NewSide(b)
  {
    if a == [] {
      assert a + b == b;
    } else {
      NewSideAppends(a[1..], b);
      assert (a + b)[0] == a[0] && (a + b)[1..] == a[1..] + b;
      Regroup(if a[0].Remove? then [] else [a[0].line], NewSide(a[1..]), NewSide(b));
    }
  }

  lemma {:induction false} RemovesSides(lines: seq<string>)
    ensures OldSide(Removes(lines)) == lines && NewSide(Removes(lines)) == []
  {
    if lines != [] {
      RemovesSides(lines[1..]);
      assert Removes(lines)[1..] == Removes(lines[1..]);
    }
  }

  lemma {:induction false} AddsSides(lines: seq<string>)
    ensures OldSide(Adds(lines)) == [] && NewSide(Adds(lines)) == lines
  {
    if lines != [] {
      AddsSides(lines[1..]);
      assert Adds(lines)[1..] == Adds(lines[1..]);
    }
  }

  lemma {:induction false} ReverseSides(p: Patch)
    ensures OldSide(Reverse(p).ops) == NewSide(p.ops) && NewSide(Reverse(p).ops) == OldSide(p.ops)
    decreases |p.ops|
  {
    if p.ops != [] {
      var rest := p.(ops := p.ops[1..]);
      ReverseSides(rest);
      assert Reverse(p).ops[1..] == Reverse(rest).ops;
    }
  }

  lemma ReplaceMiddle(content: string, head: seq<string>, from: seq<string>, to: seq<string>, tail: seq<string>)
    requires Lines(content) == head + from + tail
    ensures Replace(content, |head|, from, to) == Some(Join(head + to + tail))
  {
    hide Lines, Join;
    MiddleSlices(head, from, tail);
  }

  lemma MiddleSlices(head: seq<string>, from: seq<string>, tail: seq<string>)
    ensures var lines := head + from + tail;
            && lines[..|head|] == head && lines[|head|..|head|+|from|] == from && lines[|head|+|from|..] == tail
            && |lines| >= |head| + |from|
  {
  }

  /** Both directions: the patch takes each side to the other. */
  ghost predicate Describes(p: Patch, change: FileChange) {
    && p.oldName == (if change.before.exists_ then change.name else "/dev/null")
    && p.newName == (if change.after.exists_ then change.name else "/dev/null")
    && Apply(p, change.before.content) == Some(change.after.content)
    && Apply(Reverse(p), change.after.content) == Some(change.before.content)
    && Minimal(OldSide(p.ops), NewSide(p.ops)) && forall i :: 0 <= i < |p.ops| ==> !p.ops[i].Keep?
  }

  /** The two sides share neither their first nor their last line. */
  ghost predicate Minimal(removed: seq<string>, added: seq<string>) {
    removed != [] && added != [] ==> removed[0] != added[0] && removed[|removed|-1] != added[|added|-1]
  }

  lemma AppliesAt(p: Patch, content: string, head: seq<string>, from: seq<string>, to: seq<string>, tail: seq<string>)
    requires OldSide(p.ops) == from && |from| == p.oldCount && NewSide(p.ops) == to && |to| == p.newCount
    requires Position(p.oldStart, p.oldCount) == Position(p.newStart, p.newCount) == |head|
    requires Lines(content) == head + from + tail
    ensures Apply(p, content) == Some(Join(head + to + tail))
  {
    ReplaceMiddle(content, head, from, to, tail);
  }

  lemma PatchSides(oldName: string, newName: string, prefix: nat, removed: seq<string>, added: seq<string>)
    ensures var p := PatchOf(oldName, newName, prefix, removed, added);
            OldSide(p.ops) == removed && NewSide(p.ops) == added
  {
    hide OldSide, NewSide;
    OldSideAppends(Removes(removed), Adds(added));
    NewSideAppends(Removes(removed), Adds(added));
    RemovesSides(removed);
    AddsSides(added);
  }

  lemma PatchApplies(change: FileChange, oldName: string, newName: string, head: seq<string>, removed: seq<string>,
                     added: seq<string>, tail: seq<string>)
    requires Lines(change.before.content) == head + removed + tail && Lines(change.after.content) == head + added + tail
    ensures var p := PatchOf(oldName, newName, |head|, removed, added);
            && Apply(p, change.before.content) == Some(change.after.content)
            && Apply(Reverse(p), change.after.content) == Some(change.before.content)
            && OldSide(p.ops) == removed && NewSide(p.ops) == added
  {
    hide OldSide, NewSide, Apply, Removes, Adds, Lines, Join;
    var p := PatchOf(oldName, newName, |head|, removed, added);
    PatchSides(oldName, newName, |head|, removed, added);
    ReverseSides(p);
    AppliesAt(p, change.before.content, head, removed, added, tail);
    AppliesAt(Reverse(p), change.after.content, head, added, removed, tail);
  }

  lemma {:induction false} BodyIsComplete(sign: char, lines: seq<string>)
    requires AllLines(lines) && sign != '\n'
    ensures AllComplete(BodyLines(sign, lines))
  {
    if lines != [] {
      hide IsLine;
      BodyIsComplete(sign, lines[1..]);
      SignedIsComplete(sign, lines[0]);
      BodyFirst(sign, lines);
    }
  }

  lemma SignedIsComplete(sign: char, line: string)
    requires IsLine(line) && sign != '\n'
    ensures AllComplete(BodyLines(sign, [line]))
  {
    assert [line][1..] == [] && BodyLines(sign, []) == [];
    assert Complete(MARK);
    var text := if Complete(line) then [sign] + line else [sign] + line + "\n";
    forall j | 0 <= j < |text| - 1 ensures text[j] != '\n' {
      if 0 < j < |line| { assert line[..|line|-1][j-1] == text[j]; }
    }
    assert Complete(text);
  }

  // ----- The printers ----------------------------------------------------------------------------

  /** Whatever follows, the text reads as this patch first. */
  ghost predicate ReadsAs(text: string, p: Patch) {
    && WholeLines(text)
    && forall rest: seq<string> :: Unmarked(rest) ==> ReadPatch(Lines(text) + rest) == Some((p, rest))
  }

  ghost predicate WholeLines(text: string) { AllComplete(Lines(text)) }

  /** Appends one side of the hunk. */
  method WriteSide(result: string, sign: char, lines: seq<string>) returns (text: string)
    requires AllLines(lines) && sign != '\n'
    ensures text == result + Join(BodyLines(sign, lines))
  {
    hide BodyLines, Join;
    text := result;
    NoBody(sign, lines);
    for i := 0 to |lines|
      invariant text == result + Join(BodyLines(sign, lines[..i]))
    {
      BodyGrows(sign, lines, i);
      var line := lines[i];
      text := text + [sign] + line;
      if line[|line|-1] != '\n' {
        text := text + "\n" + MARK;
      }
    }
    assert lines[..|lines|] == lines;
  }

  lemma NoBody(sign: char, lines: seq<string>)
    ensures Join(BodyLines(sign, lines[..0])) == ""
  {
  }

  lemma {:induction false} BodyAppend(sign: char, a: seq<string>, b: seq<string>)
    ensures BodyLines(sign, a + b) == BodyLines(sign, a) + BodyLines(sign, b)
  {
    hide BodyLines;
    if a == [] {
      assert a + b == b;
      NoBodyLines(sign, b);
    } else {
      BodyAppend(sign, a[1..], b);
      assert (a + b)[0] == a[0] && (a + b)[1..] == a[1..] + b;
      BodyFirst(sign, a);
      BodyFirst(sign, a + b);
      Regroup(BodyLines(sign, [a[0]]), BodyLines(sign, a[1..]), BodyLines(sign, b));
    }
  }

  lemma NoBodyLines(sign: char, b: seq<string>)
    ensures BodyLines(sign, []) + BodyLines(sign, b) == BodyLines(sign, b)
  {
  }

  lemma BodyGrows(sign: char, lines: seq<string>, i: nat)
    requires i < |lines| && IsLine(lines[i])
    ensures Join(BodyLines(sign, lines[..i+1])) == Join(BodyLines(sign, lines[..i])) + [sign] + lines[i]
                                                   + (if lines[i][|lines[i]|-1] == '\n' then "" else "\n" + MARK)
  {
    assert lines[..i+1] == lines[..i] + [lines[i]];
    BodyAppend(sign, lines[..i], [lines[i]]);
    JoinAppend(BodyLines(sign, lines[..i]), BodyLines(sign, [lines[i]]));
    assert [lines[i]][1..] == [] && BodyLines(sign, []) == [];
    JoinOne([sign] + lines[i]);
    JoinTwo([sign] + lines[i] + "\n", MARK);
  }

  lemma NameLineIsComplete(prefix: string, name: string)
    requires '\n' !in prefix && '\n' !in name
    ensures Complete(prefix + name + "\n")
  {
    var line := prefix + name + "\n";
    assert line[..|line|-1] == prefix + name;
  }

  lemma HeaderIsComplete(oldStart: nat, oldCount: nat, newStart: nat, newCount: nat)
    ensures Complete(HeaderText(oldStart, oldCount, newStart, newCount))
  {
    var line := HeaderText(oldStart, oldCount, newStart, newCount);
    var before, after := RangeText(oldStart, oldCount), RangeText(newStart, newCount);
    RangeHasNoNewline(oldStart, oldCount);
    RangeHasNoNewline(newStart, newCount);
    hide RangeText;
    assert line[..|line|-1] == "@@ -" + before + " +" + after + " @@";
  }

  lemma RangeHasNoNewline(start: nat, count: nat)
    ensures '\n' !in RangeText(start, count)
  {
    assert forall c :: c in Decimal.Itoa(start) || c in Decimal.Itoa(count) ==> Decimal.IsDigit(c);
  }

  /** The printed text is made of whole lines and reads back as the patch, whatever follows it. */
  lemma FileTextReadsBack(oldName: string, newName: string, prefix: nat, removed: seq<string>, added: seq<string>)
    requires AllLines(removed) && AllLines(added) && '\n' !in oldName && '\n' !in newName
    ensures ReadsAs(Join(FileLines(oldName, newName, prefix, removed, added)),
                    PatchOf(oldName, newName, prefix, removed, added))
  {
    hide BodyLines, ReadPatch, IsLine, Complete, HeaderText, AllLines, Join, PatchOf;
    var lines := FileLines(oldName, newName, prefix, removed, added);
    NameLineIsComplete("--- ", oldName);
    NameLineIsComplete("+++ ", newName);
    HeaderIsComplete(UnifiedRangeStart(prefix, |removed|), |removed|, UnifiedRangeStart(prefix, |added|), |added|);
    BodyIsComplete('-', removed);
    BodyIsComplete('+', added);
    assert AllComplete(lines);
    LinesAppend(lines, "");
    assert Join(lines) + "" == Join(lines) && lines + Lines("") == lines;
    forall rest: seq<string> | Unmarked(rest)
      ensures ReadPatch(lines + rest) == Some((PatchOf(oldName, newName, prefix, removed, added), rest))
    {
      FileReadsBack(oldName, newName, prefix, removed, added, rest);
    }
  }

  lemma JoinFile(a: string, b: string, c: string, x: seq<string>, y: seq<string>)
    ensures Join([a, b, c] + x + y) == a + b + c + Join(x) + Join(y)
  {
    JoinAppend([a, b, c] + x, y);
    JoinAppend([a, b, c], x);
    JoinAppend([a, b], [c]);
    assert [a, b] + [c] == [a, b, c];
    JoinTwo(a, b);
    JoinOne(c);
  }

  lemma ThreeParts(lines: seq<string>, prefix: nat, suffix: nat)
    requires prefix + suffix <= |lines|
    ensures lines == lines[..prefix] + lines[prefix..|lines|-suffix] + lines[|lines|-suffix..]
  {
  }

  /** Equal heads, equal tails, no overlap, and neither can be longer. */
  ghost predicate Trimmed(before: seq<string>, after: seq<string>, prefix: nat, suffix: nat) {
    && prefix + suffix <= |before| && prefix + suffix <= |after|
    && before[..prefix] == after[..prefix] && before[|before|-suffix..] == after[|after|-suffix..]
    && (prefix < |before| && prefix < |after| ==> before[prefix] != after[prefix])
    && (prefix + suffix < |before| && prefix + suffix < |after| ==>
          before[|before|-suffix-1] != after[|after|-suffix-1])
  }

  /** The suffix is looked for only behind the prefix. */
  method CommonEnds(before: seq<string>, after: seq<string>) returns (prefix: nat, suffix: nat)
    ensures prefix + suffix <= |before| && prefix + suffix <= |after|
    ensures Trimmed(before, after, prefix, suffix)
  {
    prefix := CommonPrefix(before, after);
    suffix := CommonSuffix(before[prefix..], after[prefix..]);
    SameTail(before, after, prefix, suffix);
  }

  /** Prints the diff of one file. */
  method UnifiedFileDiff(change: FileChange) returns (text: string)
    requires '\n' !in change.name
    ensures var read := ReadPatch(Lines(text));
            read.Some? && read.value.1 == [] && Describes(read.value.0, change) && ReadsAs(text, read.value.0)
  {
    hide Join, Lines, ReadsAs, Apply, Describes, PatchOf, BodyLines, HeaderText, WellSplit, AllLines, FileLines,
         UnifiedRangeStart, Trimmed, ReadPatch;
    var before := SplitLines(change.before.content);
    var after := SplitLines(change.after.content);
    var prefix, suffix := CommonEnds(before, after);
    var beforeEnd, afterEnd := |before| - suffix, |after| - suffix;
    var oldName := if change.before.exists_ then change.name else "/dev/null";
    var newName := if change.after.exists_ then change.name else "/dev/null";
    var removed, added := before[prefix..beforeEnd], after[prefix..afterEnd];
    var first, second := "--- " + oldName + "\n", "+++ " + newName + "\n";
    var header := HeaderText(UnifiedRangeStart(prefix, |removed|), |removed|, UnifiedRangeStart(prefix, |added|),
                             |added|);
    SplitIsLines(before, prefix, beforeEnd);
    SplitIsLines(after, prefix, afterEnd);
    text := WriteSide(first + second + header, '-', removed);
    text := WriteSide(text, '+', added);
    FileIsFaithful(change, oldName, newName, before, after, prefix, suffix, removed, added);
    FileText(oldName, newName, prefix, removed, added);
    ReadsAlone(text, PatchOf(oldName, newName, prefix, removed, added));
  }

  lemma ReadsAlone(text: string, p: Patch)
    requires ReadsAs(text, p)
    ensures ReadPatch(Lines(text)) == Some((p, []))
  {
    var none: seq<string> := [];
    assert Unmarked(none) && Lines(text) + none == Lines(text);
  }

  lemma FileText(oldName: string, newName: string, prefix: nat, removed: seq<string>, added: seq<string>)
    ensures Join(FileLines(oldName, newName, prefix, removed, added))
            == ("--- " + oldName + "\n") + ("+++ " + newName + "\n")
               + HeaderText(UnifiedRangeStart(prefix, |removed|), |removed|, UnifiedRangeStart(prefix, |added|),
                            |added|)
               + Join(BodyLines('-', removed)) + Join(BodyLines('+', added))
  {
    hide Join, BodyLines, HeaderText, UnifiedRangeStart;
    var header := HeaderText(UnifiedRangeStart(prefix, |removed|), |removed|, UnifiedRangeStart(prefix, |added|),
                             |added|);
    JoinFile("--- " + oldName + "\n", "+++ " + newName + "\n", header, BodyLines('-', removed), BodyLines('+', added));
  }

  lemma SplitIsLines(lines: seq<string>, from: nat, to: nat)
    requires WellSplit(lines) && from <= to <= |lines|
    ensures AllLines(lines[from..to])
  {
  }

  lemma FileIsFaithful(change: FileChange, oldName: string, newName: string, before: seq<string>, after: seq<string>,
                       prefix: nat, suffix: nat, removed: seq<string>, added: seq<string>)
    requires '\n' !in change.name && before == Lines(change.before.content) && after == Lines(change.after.content)
    requires oldName == (if change.before.exists_ then change.name else "/dev/null")
    requires newName == (if change.after.exists_ then change.name else "/dev/null")
    requires prefix + suffix <= |before| && prefix + suffix <= |after| && Trimmed(before, after, prefix, suffix)
    requires removed == before[prefix..|before|-suffix] && added == after[prefix..|after|-suffix]
    ensures var p := PatchOf(oldName, newName, prefix, removed, added);
            ReadsAs(Join(FileLines(oldName, newName, prefix, removed, added)), p) && Describes(p, change)
  {
    hide Join, Lines, FileLines, ReadsAs, Apply, PatchOf, Reverse, IsLine, Minimal;
    SplitIsLines(before, prefix, |before| - suffix);
    SplitIsLines(after, prefix, |after| - suffix);
    FileTextReadsBack(oldName, newName, prefix, removed, added);
    ThreeParts(before, prefix, suffix);
    ThreeParts(after, prefix, suffix);
    PatchApplies(change, oldName, newName, before[..prefix], removed, added, before[|before|-suffix..]);
    PatchShape(oldName, newName, prefix, removed, added);
    TrimmedIsMinimal(before, after, prefix, suffix);
  }

  lemma SameTail(before: seq<string>, after: seq<string>, prefix: nat, suffix: nat)
    requires prefix + suffix <= |before| && prefix + suffix <= |after|
    requires before[prefix..][|before|-prefix-suffix..] == after[prefix..][|after|-prefix-suffix..]
    ensures before[|before|-suffix..] == after[|after|-suffix..]
  {
    assert before[prefix..][|before|-prefix-suffix..] == before[|before|-suffix..];
    assert after[prefix..][|after|-prefix-suffix..] == after[|after|-suffix..];
  }

  lemma PatchShape(oldName: string, newName: string, prefix: nat, removed: seq<string>, added: seq<string>)
    ensures var p := PatchOf(oldName, newName, prefix, removed, added);
            && p.oldName == oldName && p.newName == newName && forall i :: 0 <= i < |p.ops| ==> !p.ops[i].Keep?
  {
  }

  lemma TrimmedIsMinimal(before: seq<string>, after: seq<string>, prefix: nat, suffix: nat)
    requires Trimmed(before, after, prefix, suffix)
    ensures Minimal(before[prefix..|before|-suffix], after[prefix..|after|-suffix])
  {
  }

  /** The text reads as these patches, followed by those of what comes after. */
  ghost predicate ReadsAsAll(text: string, patches: seq<Patch>) {
    && WholeLines(text)
    && forall rest: seq<string> :: Unmarked(rest) && ReadPatches(rest).Some? ==>
         ReadPatches(Lines(text) + rest) == Some(patches + ReadPatches(rest).value)
  }

  lemma NameIsUnmarked(line: string)
    requires ReadName(line, "--- ").Some?
    ensures line != MARK
  {
    assert line[0] == "--- "[0] && MARK[0] == '\\';
  }

  lemma PatchIsUnmarked(lines: seq<string>)
    requires ReadPatch(lines).Some?
    ensures lines != [] && Unmarked(lines)
  {
    hide ReadName, ReadHeader, ReadOps;
    NameIsUnmarked(lines[0]);
  }

  lemma OnePatchMore(text: string, patches: seq<Patch>, next: string, patch: Patch)
    requires ReadsAsAll(text, patches) && ReadsAs(next, patch)
    ensures ReadsAsAll(text + next, patches + [patch])
  {
    hide ReadPatch, Complete, Lines, Join;
    LinesAppend(Lines(text), next);
    forall rest: seq<string> | Unmarked(rest) && ReadPatches(rest).Some?
      ensures ReadPatches(Lines(text) + Lines(next) + rest) == Some(patches + [patch] + ReadPatches(rest).value)
    {
      var tail := Lines(next) + rest;
      assert ReadPatch(tail) == Some((patch, rest));
      PatchIsUnmarked(tail);
      assert ReadPatches(tail) == Some([patch] + ReadPatches(rest).value);
      Regroup(Lines(text), Lines(next), rest);
      assert patches + ([patch] + ReadPatches(rest).value) == patches + [patch] + ReadPatches(rest).value;
    }
  }

  function ByName(): (FileChange, FileChange) -> bool {
    (a: FileChange, b: FileChange) => StringOrder.Less(a.name, b.name)
  }

  /** Prints every file's diff in name order: reading the text gives back exactly one faithful patch a file. */
  method ModuleDiff(changes: seq<FileChange>) returns (text: string)
    requires forall i :: 0 <= i < |changes| ==> '\n' !in changes[i].name
    ensures var read, ordered := ReadPatches(Lines(text)), Sorting.StableSort(changes, ByName());
            read.Some? && |read.value| == |changes| && forall i :: 0 <= i < |changes| ==>
              Describes(read.value[i], ordered[i])
  {
    hide ReadPatches, ReadPatch, Describes, ReadsAs, ReadsAsAll, Lines;
    var ordered := Sorting.StableSort(changes, ByName());
    Sorting.SameElements(ordered, changes);
    ghost var patches: seq<Patch> := [];
    text := "";
    NoText();
    for i := 0 to |ordered|
      invariant |patches| == i && ReadsAsAll(text, patches)
      invariant forall j :: 0 <= j < i ==> Describes(patches[j], ordered[j])
    {
      assert ordered[i] in changes;
      var diff := UnifiedFileDiff(ordered[i]);
      ghost var patch := ReadPatch(Lines(diff)).value.0;
      OnePatchMore(text, patches, diff, patch);
      text, patches := text + diff, patches + [patch];
    }
    AllRead(text, patches);
  }

  lemma NoText()
    ensures ReadsAsAll("", [])
  {
    assert Lines("") == [];
    forall rest: seq<string> | ReadPatches(rest).Some?
      ensures ReadPatches([] + rest) == Some([] + ReadPatches(rest).value)
    {
      assert [] + rest == rest && [] + ReadPatches(rest).value == ReadPatches(rest).value;
    }
  }

  lemma AllRead(text: string, patches: seq<Patch>)
    requires ReadsAsAll(text, patches)
    ensures ReadPatches(Lines(text)) == Some(patches)
  {
    var none: seq<string> := [];
    assert ReadPatches(none) == Some([]) && Unmarked(none);
    assert Lines(text) + none == Lines(text) && patches + [] == patches;
  }
}
