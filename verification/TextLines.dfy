/**
 Texts and their lines, with every character at which a text is split.
 */
module TextLines {
  import opened PathText

  /** The characters at which a text splits into lines. */
  predicate IsBreak(c: char) {
    c == '\n' || c == '\r' || c == '\U{0B}' || c == '\U{0C}' || c == '\U{1C}' || c == '\U{1D}' || c == '\U{1E}'
    || c == '\U{85}' || c == '\U{2028}' || c == '\U{2029}'
  }

  predicate Unbroken(s: string) {
    forall i :: 0 <= i < |s| ==> !IsBreak(s[i])
  }

  function LineLength(s: string): (n: nat)
    ensures n <= |s| && Unbroken(s[..n]) && (n < |s| ==> IsBreak(s[n]))
  {
    if s == [] || IsBreak(s[0]) then 0
    else
      var n := 1 + LineLength(s[1..]);
      assert s[..n] == [s[0]] + s[1..][..n - 1];
      n
  }

  function SplitLines(s: string): (lines: seq<string>)
    ensures forall i :: 0 <= i < |lines| ==> Unbroken(lines[i])
  {
    if s == [] then []
    else
      var n := LineLength(s);
      if n == |s| then [s]
      else [s[..n]] + SplitLines(s[n + (if s[n] == '\r' && n + 1 < |s| && s[n + 1] == '\n' then 2 else 1)..])
  }

  /** A line ends at the next break, which is dropped; a carriage return and a line feed are one break. */
  lemma SplitsAtBreak(line: string, end: char, rest: string)
    requires Unbroken(line) && IsBreak(end)
    ensures end != '\r' || rest == [] || rest[0] != '\n' ==>
      SplitLines(line + ([end] + rest)) == [line] + SplitLines(rest)
    ensures SplitLines(line + ("\r\n" + rest)) == [line] + SplitLines(rest)
    ensures line != [] ==> SplitLines(line) == [line]
  {
    BreakAfter(line, [end] + rest);
    BreakAfter(line, "\r\n" + rest);
    assert ([end] + rest)[1..] == rest && ("\r\n" + rest)[2..] == rest;
  }

  lemma BreakAfter(line: string, tail: string)
    requires Unbroken(line) && tail != [] && IsBreak(tail[0])
    ensures var s := line + tail;
      var width := if tail[0] == '\r' && |tail| > 1 && tail[1] == '\n' then 2 else 1;
      SplitLines(s) == [line] + SplitLines(tail[width..])
  {
    LineLengthIs(line, tail);
    var s := line + tail;
    assert s[..|line|] == line && s[|line|] == tail[0];
    assert s[|line| + 1..] == tail[1..];
    if |tail| > 1 {
      assert s[|line| + 1] == tail[1] && s[|line| + 2..] == tail[2..];
    }
  }

  /** Reading a text file turns every line end into a line feed. */
  function ReadText(s: string): string {
    if s == [] then []
    else if s[0] == '\r' then ['\n'] + ReadText(s[if |s| > 1 && s[1] == '\n' then 2 else 1..])
    else [s[0]] + ReadText(s[1..])
  }

  /** A carriage return, with a line feed behind it or not, is read as one line feed. */
  lemma ReadsOneEnd(rest: string)
    ensures ReadText("\r\n" + rest) == "\n" + ReadText(rest)
    ensures rest == [] || rest[0] != '\n' ==> ReadText("\r" + rest) == "\n" + ReadText(rest)
  {
    assert ("\r\n" + rest)[2..] == rest && ("\r" + rest)[1..] == rest;
  }

  lemma {:induction false} ReadPlain(s: string)
    requires '\r' !in s
    ensures ReadText(s) == s
  {
    if s != [] {
      assert s == [s[0]] + s[1..];
      ReadPlain(s[1..]);
    }
  }

  /** Each line with a line feed behind it. */
  function Unlines(lines: seq<string>): string {
    if lines == [] then "" else lines[0] + "\n" + Unlines(lines[1..])
  }

  lemma {:induction false} JoinedWithEnd(lines: seq<string>)
    requires lines != []
    ensures Join(lines, '\n') + "\n" == Unlines(lines)
  {
    if |lines| > 1 {
      JoinedWithEnd(lines[1..]);
    } else {
      assert Unlines(lines[1..]) == "";
    }
  }

  lemma {:induction false} LineLengthIs(line: string, rest: string)
    requires Unbroken(line) && rest != [] && IsBreak(rest[0])
    ensures LineLength(line + rest) == |line|
  {
    if line == [] {
      assert line + rest == rest;
    } else {
      assert (line + rest)[1..] == line[1..] + rest;
      LineLengthIs(line[1..], rest);
    }
  }

  /** Splitting undoes joining for lines that hold no break. */
  lemma {:induction false} SplitUnlines(lines: seq<string>)
    requires forall i :: 0 <= i < |lines| ==> Unbroken(lines[i])
    ensures SplitLines(Unlines(lines)) == lines && '\r' !in Unlines(lines)
  {
    if lines != [] {
      var rest := Unlines(lines[1..]);
      var s := lines[0] + "\n" + rest;
      assert s == lines[0] + ("\n" + rest);
      LineLengthIs(lines[0], "\n" + rest);
      assert s[|lines[0]| + 1..] == rest && s[..|lines[0]|] == lines[0];
      SplitUnlines(lines[1..]);
      assert forall i :: 0 <= i < |lines[0]| ==> lines[0][i] != '\r';
    }
  }
}
