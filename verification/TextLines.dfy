/** Text cut into lines that keep their newline (compiler/annotationinstall/install.go: splitLines). */
module TextLines {
  function IndexByte(content: string, b: char): (i: int)
    ensures -1 <= i < |content|
    ensures i >= 0 ==> content[i] == b && b !in content[..i]
    ensures i < 0 ==> b !in content
  {
    if content == "" then -1
    else if content[0] == b then 0
    else
      var rest := IndexByte(content[1..], b);
      assert content == [content[0]] + content[1..];
      if rest < 0 then -1 else assert content[..rest+1] == [content[0]] + content[1..][..rest]; rest + 1
  }

  /** At most one newline, and that at the end. */
  predicate IsLine(s: string) { s != "" && '\n' !in s[..|s|-1] }

  predicate Complete(s: string) { IsLine(s) && s[|s|-1] == '\n' }

  /** Only the last line may lack its newline. */
  ghost predicate WellSplit(lines: seq<string>) {
    forall i :: 0 <= i < |lines| ==> IsLine(lines[i]) && (i < |lines| - 1 ==> Complete(lines[i]))
  }

  ghost predicate AllComplete(lines: seq<string>) { forall i :: 0 <= i < |lines| ==> Complete(lines[i]) }

  function Join(lines: seq<string>): string { if lines == [] then "" else lines[0] + Join(lines[1..]) }

  /** The lines of a text. */
  function Lines(content: string): (lines: seq<string>)
    ensures Join(lines) == content
    ensures WellSplit(lines)
    decreases |content|
  {
    if content == "" then []
    else
      var index := IndexByte(content, '\n');
      if index < 0 then [content]
      else
        assert content == content[..index+1] + content[index+1..];
        [content[..index+1]] + Lines(content[index+1..])
  }

  lemma {:induction false} JoinAppend(a: seq<string>, b: seq<string>)
    ensures Join(a + b) == Join(a) + Join(b)
  {
    hide Lines, IsLine, Complete;
    if a == [] {
      assert a + b == b;
    } else {
      JoinAppend(a[1..], b);
      assert (a + b)[0] == a[0] && (a + b)[1..] == a[1..] + b;
      assert Join(a + b) == a[0] + Join(a[1..] + b);
    }
  }

  lemma JoinOne(a: string)
    ensures Join([a]) == a
  {
    assert [a][1..] == [] && Join([]) == "";
  }

  lemma JoinTwo(a: string, b: string)
    ensures Join([a, b]) == a + b
  {
    assert [a, b][1..] == [b];
    JoinOne(b);
  }

  /** A text has one way of being cut into lines. */
  lemma {:induction false} SplittingIsUnique(lines: seq<string>)
    requires WellSplit(lines)
    ensures Lines(Join(lines)) == lines
    decreases |lines|
  {
    if lines != [] {
      var content, head, tail := Join(lines), lines[0], lines[1..];
      assert WellSplit(tail);
      SplittingIsUnique(tail);
      var index := IndexByte(content, '\n');
      var last := |head| - 1;
      assert head[..last] == content[..last] && content[last] == head[last];
      if head[last] == '\n' {
        assert '\n' !in content[..last];
        forall j | 0 <= j < last ensures content[j] != '\n' { assert content[..last][j] == content[j]; }
        forall j | 0 <= j < index ensures content[j] != '\n' { assert content[..index][j] == content[j]; }
        assert index == last;
        assert content[..index+1] == head && content[index+1..] == Join(tail);
      } else {
        assert |lines| == 1 && lines == [head] && tail == [];
        assert content == head;
        assert head == head[..last] + [head[last]];
      }
    }
  }

  lemma CompleteIsWellSplit(a: seq<string>, b: seq<string>)
    requires AllComplete(a) && WellSplit(b)
    ensures WellSplit(a + b)
  {
  }

  /** Text of whole lines in front does not change how the rest is cut. */
  lemma LinesAppend(a: seq<string>, text: string)
    requires AllComplete(a)
    ensures Lines(Join(a) + text) == a + Lines(text)
  {
    CompleteIsWellSplit(a, Lines(text));
    JoinAppend(a, Lines(text));
    SplittingIsUnique(a + Lines(text));
  }

  lemma Regroup(a: seq<string>, b: seq<string>, c: seq<string>)
    ensures (a + b) + c == a + (b + c)
  {
  }

  lemma FirstLine(rest: string)
    requires rest != ""
    ensures var index := IndexByte(rest, '\n');
            Lines(rest) == if index < 0 then [rest] else [rest[..index+1]] + Lines(rest[index+1..])
  {
  }

  method SplitLines(content: string) returns (result: seq<string>)
    ensures result == Lines(content)
    ensures Join(result) == content && WellSplit(result)
  {
    hide Lines, Join, WellSplit;
    result := [];
    var rest := content;
    assert [] + Lines(content) == Lines(content);
    while rest != ""
      invariant Lines(content) == result + Lines(rest)
      decreases |rest|
    {
      var index := IndexByte(rest, '\n');
      FirstLine(rest);
      if index < 0 {
        result := result + [rest];
        return;
      }
      Regroup(result, [rest[..index+1]], Lines(rest[index+1..]));
      result := result + [rest[..index+1]];
      rest := rest[index+1..];
    }
    NoLines();
  }

  lemma NoLines()
    ensures Lines("") == []
  {
  }

  /** The length of the longest common prefix. */
  method CommonPrefix(left: seq<string>, right: seq<string>) returns (index: nat)
    ensures index <= |left| && index <= |right| && left[..index] == right[..index]
    ensures index < |left| && index < |right| ==> left[index] != right[index]
  {
    var length := if |left| < |right| then |left| else |right|;
    index := 0;
    while index < length && left[index] == right[index]
      invariant index <= length && left[..index] == right[..index]
    {
      index := index + 1;
    }
  }

  /** The length of the longest common suffix. */
  method CommonSuffix(left: seq<string>, right: seq<string>) returns (index: nat)
    ensures index <= |left| && index <= |right| && left[|left|-index..] == right[|right|-index..]
    ensures index < |left| && index < |right| ==> left[|left|-index-1] != right[|right|-index-1]
  {
    var length := if |left| < |right| then |left| else |right|;
    index := 0;
    while index < length && left[|left|-index-1] == right[|right|-index-1]
      invariant index <= length && left[|left|-index..] == right[|right|-index..]
    {
      assert left[|left|-index-1..] == [left[|left|-index-1]] + left[|left|-index..];
      assert right[|right|-index-1..] == [right[|right|-index-1]] + right[|right|-index..];
      index := index + 1;
    }
  }
}
