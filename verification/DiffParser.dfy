/**
 Reading the added lines out of a unified diff, and the printed form of a diff they are read from
 ("Diff -u or -U Output Format" of the POSIX.1-2017 diff utility, with the headers of version control).
 */
module DiffParser {
  import opened Basics
  import opened TextLines

  datatype AddedLine = AddedLine(path: string, number: nat, text: string)

  // ----- The hunk header pattern

  predicate IsDigit(c: char) { '0' <= c <= '9' }

  predicate StartsWith(s: string, prefix: string) { |prefix| <= |s| && s[..|prefix|] == prefix }

  function DigitsLength(s: string): (n: nat)
    ensures n <= |s| && forall i :: 0 <= i < n ==> IsDigit(s[i])
  {
    if s == [] || !IsDigit(s[0]) then 0 else 1 + DigitsLength(s[1..])
  }

  function Number(digits: string): nat
    requires forall i :: 0 <= i < |digits| ==> IsDigit(digits[i])
  {
    if digits == [] then 0
    else
      assert IsDigit(digits[|digits| - 1]);
      10 * Number(digits[..|digits| - 1]) + (digits[|digits| - 1] as int - '0' as int)
  }

  /** What is left behind an optional count: a comma and digits. */
  function SkipCount(s: string): string {
    if s != [] && s[0] == ',' && DigitsLength(s[1..]) > 0 then s[1 + DigitsLength(s[1..])..] else s
  }

  /** The first line number of the new file, if a hunk header stands at the start of `s`. */
  function MatchHunk(s: string): Option<nat> {
    if !StartsWith(s, "@@ -") then None
    else
      var s1 := s[4..];
      var s2 := SkipCount(s1[DigitsLength(s1)..]);
      if DigitsLength(s1) == 0 || !StartsWith(s2, " +") then None
      else
        var s3 := s2[2..];
        var s4 := SkipCount(s3[DigitsLength(s3)..]);
        if DigitsLength(s3) == 0 || !StartsWith(s4, " @@") then None else Some(Number(s3[..DigitsLength(s3)]))
  }

  /** The first match anywhere in the line. */
  function SearchHunk(s: string): Option<nat> {
    if MatchHunk(s).Some? || s == [] then MatchHunk(s) else SearchHunk(s[1..])
  }

  predicate Digits(d: string) { d != [] && forall i :: 0 <= i < |d| ==> IsDigit(d[i]) }

  /** An optional count: nothing, or a comma and digits. */
  predicate Count(c: string) { c == "" || (c[0] == ',' && Digits(c[1..])) }

  /** The text is a hunk header of these parts with anything behind it. */
  ghost predicate Header(s: string, first: string, firstCount: string, second: string, secondCount: string,
                         rest: string) {
    && Digits(first) && Count(firstCount) && Digits(second) && Count(secondCount)
    && s == "@@ -" + (first + (firstCount + (" +" + (second + (secondCount + (" @@" + rest))))))
  }

  /** The pattern matches exactly the headers, and gives the number of the second range. */
  lemma MatchHunkExactly(s: string)
    ensures forall a, b, c, d, rest :: Header(s, a, b, c, d, rest) ==> MatchHunk(s) == Some(Number(c))
    ensures MatchHunk(s).Some? ==> exists a, b, c, d, rest :: Header(s, a, b, c, d, rest)
  {
    hide Number;
    forall a, b, c, d, rest | Header(s, a, b, c, d, rest) ensures MatchHunk(s) == Some(Number(c)) {
      HeaderMatches(s, a, b, c, d, rest);
    }
    if MatchHunk(s).Some? {
      MatchIsHeader(s);
    }
  }

  lemma HeaderMatches(s: string, a: string, b: string, c: string, d: string, rest: string)
    requires Header(s, a, b, c, d, rest)
    ensures MatchHunk(s) == Some(Number(c))
  {
    hide Number, SkipCount, DigitsLength, Digits, Count;
    var t4 := " @@" + rest;
    var t2 := " +" + (c + (d + t4));
    assert s == "@@ -" + (a + (b + t2));
    assert s[..4] == "@@ -" && s[4..] == a + (b + t2);
    RangeOf(a, b, t2);
    assert t2[..2] == " +" && t2[2..] == c + (d + t4);
    RangeOf(c, d, t4);
    assert t4[..3] == " @@";
    SomeDigits(a);
    SomeDigits(c);
  }

  lemma SomeDigits(d: string)
    requires Digits(d)
    ensures |d| > 0 && forall i :: 0 <= i < |d| ==> IsDigit(d[i])
  {
  }

  lemma RangeOf(a: string, b: string, tail: string)
    requires Digits(a) && Count(b) && tail != [] && tail[0] == ' '
    ensures var s := a + (b + tail);
      DigitsLength(s) == |a| && s[..|a|] == a && SkipCount(s[|a|..]) == tail
  {
    DigitsLengthIs(a, b + tail);
    if b == "" {
      assert b + tail == tail;
    } else {
      assert (b + tail)[1..] == b[1..] + tail;
      DigitsLengthIs(b[1..], tail);
      assert (b + tail)[1 + |b[1..]|..] == tail;
    }
  }

  lemma MatchIsHeader(s: string)
    requires MatchHunk(s).Some?
    ensures exists a, b, c, d, rest :: Header(s, a, b, c, d, rest)
  {
    hide Number, SkipCount, DigitsLength, Digits, Count;
    var a, b, s2 := RangeParts(s[4..]);
    var c, d, s4 := RangeParts(s2[2..]);
    var rest := s4[3..];
    assert s4 == " @@" + rest && s2 == " +" + s2[2..] && s == "@@ -" + s[4..];
    assert Header(s, a, b, c, d, rest);
  }

  lemma RangeParts(t: string) returns (a: string, b: string, tail: string)
    requires DigitsLength(t) > 0
    ensures Digits(a) && Count(b) && t == a + (b + tail) && tail == SkipCount(t[DigitsLength(t)..])
  {
    hide SkipCount, Count, DigitsLength;
    var n := DigitsLength(t);
    a := t[..n];
    b, tail := CountParts(t[n..]);
    assert t == a + t[n..];
  }

  lemma CountParts(x: string) returns (b: string, tail: string)
    ensures Count(b) && x == b + tail && tail == SkipCount(x)
  {
    tail := SkipCount(x);
    if x != [] && x[0] == ',' && DigitsLength(x[1..]) > 0 {
      var n := DigitsLength(x[1..]);
      hide DigitsLength;
      b := x[..1 + n];
      assert b[1..] == x[1..][..n];
    } else {
      b := "";
    }
  }

  /** The first place in the line at which the pattern matches decides. */
  lemma {:induction false} SearchIsLeftmost(s: string)
    ensures SearchHunk(s).None? <==> forall k :: 0 <= k <= |s| ==> MatchHunk(s[k..]).None?
    ensures SearchHunk(s).Some? ==> exists k :: FirstMatch(s, k)
  {
    hide MatchHunk;
    assert s[0..] == s;
    if MatchHunk(s).Some? {
      assert FirstMatch(s, 0);
    } else if s != [] {
      SearchIsLeftmost(s[1..]);
      forall k | 0 <= k < |s| ensures s[1..][k..] == s[k + 1..] {
      }
      if SearchHunk(s[1..]).Some? {
        var k: nat :| FirstMatch(s[1..], k);
        forall j | 0 <= j < k + 1 ensures MatchHunk(s[j..]).None? {
          if j > 0 {
            assert s[1..][j - 1..] == s[j..];
          }
        }
        assert FirstMatch(s, k + 1);
      } else {
        forall k | 0 <= k <= |s| ensures MatchHunk(s[k..]).None? {
          if k > 0 {
            assert s[1..][k - 1..] == s[k..];
          }
        }
      }
    }
  }

  ghost predicate FirstMatch(s: string, k: nat) {
    && k <= |s| && MatchHunk(s[k..]).Some? && SearchHunk(s) == MatchHunk(s[k..])
    && forall j :: 0 <= j < k ==> MatchHunk(s[j..]).None?
  }

  // ----- The parser

  const NEW_FILE := "+++ b/"
  const NO_FILE := "+++ /dev/null"

  /** The file and the line the parser is at, as far as it knows. */
  datatype State = State(path: Option<string>, line: Option<nat>)

  const START := State(None, None)

  predicate Inside(s: State) { s.path.Some? && s.line.Some? }

  predicate IsAdded(raw: string) { StartsWith(raw, "+") && !StartsWith(raw, "+++") }

  function Next(s: State, raw: string): State {
    if StartsWith(raw, NEW_FILE) then State(Some(raw[|NEW_FILE|..]), None)
    else if StartsWith(raw, NO_FILE) then State(None, None)
    else if StartsWith(raw, "@@") then s.(line := SearchHunk(raw))
    else if !Inside(s) || (StartsWith(raw, "-") && !IsAdded(raw)) then s
    else s.(line := Some(s.line.value + 1))
  }

  function Yield(s: State, raw: string): seq<AddedLine> {
    if StartsWith(raw, NEW_FILE) || StartsWith(raw, NO_FILE) || StartsWith(raw, "@@") || !Inside(s)
      || !IsAdded(raw) then []
    else [AddedLine(s.path.value, s.line.value, raw[1..])]
  }

  function Parse(s: State, lines: seq<string>): seq<AddedLine>
    decreases |lines|
  {
    if lines == [] then [] else Yield(s, lines[0]) + Parse(Next(s, lines[0]), lines[1..])
  }

  function After(s: State, lines: seq<string>): State
    decreases |lines|
  {
    if lines == [] then s else After(Next(s, lines[0]), lines[1..])
  }

  method ParseAddedLines(text: string) returns (added: seq<AddedLine>)
    ensures added == Parse(START, SplitLines(text))
  {
    hide StartsWith, SearchHunk;
    var lines, path, line, i := SplitLines(text), None, None, 0;
    added := [];
    assert lines[0..] == lines;
    while i < |lines|
      invariant 0 <= i <= |lines|
      invariant added + Parse(State(path, line), lines[i..]) == Parse(START, lines)
    {
      hide Parse;
      var raw := lines[i];
      ParseOne(added, State(path, line), lines, i);
      i := i + 1;
      if StartsWith(raw, NEW_FILE) {
        AtLeast(raw, NEW_FILE);
        path, line := Some(raw[|NEW_FILE|..]), None;
        continue;
      }
      if StartsWith(raw, NO_FILE) {
        path, line := None, None;
        continue;
      }
      if StartsWith(raw, "@@") {
        line := SearchHunk(raw);
        continue;
      }
      if path.None? || line.None? {
        continue;
      }
      if StartsWith(raw, "+") && !StartsWith(raw, "+++") {
        AtLeast(raw, "+");
        added := added + [AddedLine(path.value, line.value, raw[1..])];
        line := Some(line.value + 1);
      } else if StartsWith(raw, "-") {
        continue;
      } else {
        line := Some(line.value + 1);
      }
    }
  }

  lemma ParseOne(added: seq<AddedLine>, s: State, lines: seq<string>, i: nat)
    requires i < |lines|
    ensures added + Parse(s, lines[i..]) == (added + Yield(s, lines[i])) + Parse(Next(s, lines[i]), lines[i + 1..])
    ensures Yield(s, lines[i]) == [] ==>
      added + Parse(s, lines[i..]) == added + Parse(Next(s, lines[i]), lines[i + 1..])
  {
    assert lines[i..][0] == lines[i] && lines[i..][1..] == lines[i + 1..];
    hide Yield, Next;
    assert added + [] == added;
  }

  lemma AtLeast(s: string, prefix: string)
    requires StartsWith(s, prefix)
    ensures |s| >= |prefix|
  {
  }

  // ----- Printed diffs

  datatype Line = Context(text: string) | Add(text: string) | Delete(text: string) | NoNewline

  datatype Hunk = Hunk(oldStart: nat, newStart: nat, heading: string, lines: seq<Line>)

  /** One file of a diff; without a new path the file is deleted, and without hunks only its header
      lines are printed. */
  datatype FileDiff = FileDiff(headers: seq<string>, oldName: string, newPath: Option<string>, hunks: seq<Hunk>)

  function Decimal(n: nat): (r: string)
    ensures r != [] && forall i :: 0 <= i < |r| ==> IsDigit(r[i])
  {
    if n < 10 then [('0' as int + n) as char] else Decimal(n / 10) + [('0' as int + n % 10) as char]
  }

  /** A range with its count left out when it is one. */
  function Range(start: nat, count: nat): string {
    Decimal(start) + if count == 1 then "" else "," + Decimal(count)
  }

  function OldCount(lines: seq<Line>): nat {
    if lines == [] then 0 else (if lines[0].Context? || lines[0].Delete? then 1 else 0) + OldCount(lines[1..])
  }

  function NewCount(lines: seq<Line>): nat {
    if lines == [] then 0 else (if lines[0].Context? || lines[0].Add? then 1 else 0) + NewCount(lines[1..])
  }

  function HunkHeader(h: Hunk): string {
    "@@ -" + (Range(h.oldStart, OldCount(h.lines))
      + (" +" + (Range(h.newStart, NewCount(h.lines)) + (" @@" + h.heading))))
  }

  function RenderLine(l: Line): string {
    match l
    case Context(t) => " " + t
    case Add(t) => "+" + t
    case Delete(t) => "-" + t
    case NoNewline => "\\ No newline at end of file"
  }

  function RenderLines(lines: seq<Line>): seq<string> {
    if lines == [] then [] else [RenderLine(lines[0])] + RenderLines(lines[1..])
  }

  function RenderHunks(hunks: seq<Hunk>): seq<string> {
    if hunks == [] then [] else [HunkHeader(hunks[0])] + RenderLines(hunks[0].lines) + RenderHunks(hunks[1..])
  }

  function NewName(f: FileDiff): string {
    if f.newPath.Some? then "+++ b/" + f.newPath.value else "+++ /dev/null"
  }

  function RenderFile(f: FileDiff): seq<string> {
    f.headers + if f.hunks == [] then [] else ["--- " + f.oldName, NewName(f)] + RenderHunks(f.hunks)
  }

  function RenderDiff(d: seq<FileDiff>): seq<string> {
    if d == [] then [] else RenderFile(d[0]) + RenderDiff(d[1..])
  }

  /** What the diff says: the added lines with their place in the new file. */
  function AddedIn(path: string, n: nat, lines: seq<Line>): seq<AddedLine>
    decreases |lines|
  {
    if lines == [] then []
    else
      (if lines[0].Add? then [AddedLine(path, n, lines[0].text)] else [])
      + AddedIn(path, if lines[0].Add? || lines[0].Context? then n + 1 else n, lines[1..])
  }

  function AddedInHunks(path: string, hunks: seq<Hunk>): seq<AddedLine> {
    if hunks == [] then [] else AddedIn(path, hunks[0].newStart, hunks[0].lines) + AddedInHunks(path, hunks[1..])
  }

  function AddedInFile(f: FileDiff): seq<AddedLine> {
    if f.newPath.None? then [] else AddedInHunks(f.newPath.value, f.hunks)
  }

  function AddedInDiff(d: seq<FileDiff>): seq<AddedLine> {
    if d == [] then [] else AddedInFile(d[0]) + AddedInDiff(d[1..])
  }

  // ----- Which diffs are printed

  function Adds(lines: seq<Line>): nat {
    if lines == [] then 0 else (if lines[0].Add? then 1 else 0) + Adds(lines[1..])
  }

  /** A header line starts with a letter, as all those of version control do. */
  predicate PlainHeader(s: string) {
    s != [] && ('a' <= s[0] <= 'z' || 'A' <= s[0] <= 'Z') && Unbroken(s)
  }

  predicate PrintableHunk(h: Hunk, deleted: bool) {
    && Unbroken(h.heading) && (forall i :: 0 <= i < |h.lines| ==> h.lines[i].NoNewline? || Unbroken(h.lines[i].text))
    && (deleted ==> Adds(h.lines) == 0)
  }

  /** No text holds a line separator, and a deleted file adds nothing. */
  predicate PrintableFile(f: FileDiff) {
    && (forall i :: 0 <= i < |f.headers| ==> PlainHeader(f.headers[i]))
    && Unbroken(f.oldName) && (f.newPath.Some? ==> Unbroken(f.newPath.value))
    && (forall i :: 0 <= i < |f.hunks| ==> PrintableHunk(f.hunks[i], f.newPath.None?))
  }

  predicate Printable(d: seq<FileDiff>) {
    forall i :: 0 <= i < |d| ==> PrintableFile(d[i])
  }

  // ----- Which diffs are read back exactly

  /** No added text starts with two plus signs. */
  predicate NoDoublePlus(lines: seq<Line>) {
    lines != [] ==> (lines[0].Add? ==> !StartsWith(lines[0].text, "++")) && NoDoublePlus(lines[1..])
  }

  /** No line is added behind a missing-newline marker. */
  predicate MarkersLast(lines: seq<Line>) {
    lines != [] ==> (lines[0].NoNewline? ==> Adds(lines[1..]) == 0) && MarkersLast(lines[1..])
  }

  predicate ReadableFile(f: FileDiff) {
    f.newPath.Some? ==> forall i :: 0 <= i < |f.hunks| ==>
      NoDoublePlus(f.hunks[i].lines) && MarkersLast(f.hunks[i].lines)
  }

  predicate Readable(d: seq<FileDiff>) {
    forall i :: 0 <= i < |d| ==> ReadableFile(d[i])
  }

  // ----- Hunk headers are read back

  lemma {:induction false} DigitsLengthIs(digits: string, rest: string)
    requires (forall i :: 0 <= i < |digits| ==> IsDigit(digits[i])) && (rest == [] || !IsDigit(rest[0]))
    ensures DigitsLength(digits + rest) == |digits| && (digits + rest)[|digits|..] == rest
      && (digits + rest)[..|digits|] == digits
  {
    if digits == [] {
      assert digits + rest == rest;
    } else {
      assert (digits + rest)[1..] == digits[1..] + rest;
      DigitsLengthIs(digits[1..], rest);
    }
  }

  lemma {:induction false} NumberOfDecimal(n: nat)
    ensures Number(Decimal(n)) == n
  {
    if n >= 10 {
      NumberOfDecimal(n / 10);
      var front := Decimal(n / 10);
      assert Decimal(n)[..|front|] == front;
    } else {
      assert Decimal(n)[..0] == [];
    }
  }

  lemma CountIsSkipped(count: nat, rest: string)
    requires rest != [] && rest[0] == ' '
    ensures SkipCount("," + Decimal(count) + rest) == rest && SkipCount(rest) == rest
  {
    hide Decimal;
    var tail := "," + Decimal(count) + rest;
    assert tail[1..] == Decimal(count) + rest;
    DigitsLengthIs(Decimal(count), rest);
    assert tail[1 + |Decimal(count)|..] == tail[1..][|Decimal(count)|..];
  }

  lemma RangeIsSkipped(start: nat, count: nat, rest: string)
    requires rest != [] && rest[0] == ' '
    ensures var s := Range(start, count) + rest;
      && DigitsLength(s) == |Decimal(start)| > 0 && s[..DigitsLength(s)] == Decimal(start)
      && SkipCount(s[DigitsLength(s)..]) == rest
  {
    hide Decimal, SkipCount, DigitsLength;
    var tail := if count == 1 then rest else "," + Decimal(count) + rest;
    assert Range(start, count) + rest == Decimal(start) + tail;
    DigitsLengthIs(Decimal(start), tail);
    CountIsSkipped(count, rest);
  }

  lemma FirstCharacter(s: string, prefix: string)
    requires prefix != []
    ensures StartsWith(s, prefix) ==> s != [] && s[0] == prefix[0]
  {
    if StartsWith(s, prefix) {
      assert s[..|prefix|][0] == s[0];
    }
  }

  lemma ShorterPrefix(s: string, long: string, short: string)
    requires short <= long
    ensures StartsWith(s, long) ==> StartsWith(s, short)
  {
    if StartsWith(s, long) {
      assert s[..|short|] == long[..|short|];
    }
  }

  lemma WithoutPlus(s: string)
    requires s != [] && s[0] != '+'
    ensures !StartsWith(s, NEW_FILE) && !StartsWith(s, NO_FILE) && !StartsWith(s, "+") && !IsAdded(s)
  {
    FirstCharacter(s, NEW_FILE);
    FirstCharacter(s, NO_FILE);
    FirstCharacter(s, "+");
  }

  lemma WithoutAt(s: string)
    requires s != [] && s[0] != '@'
    ensures !StartsWith(s, "@@")
  {
    FirstCharacter(s, "@@");
  }

  lemma HeaderIsRead(h: Hunk)
    ensures StartsWith(HunkHeader(h), "@@") && SearchHunk(HunkHeader(h)) == Some(h.newStart)
    ensures !StartsWith(HunkHeader(h), NEW_FILE) && !StartsWith(HunkHeader(h), NO_FILE) && !IsAdded(HunkHeader(h))
  {
    hide DigitsLength, SkipCount, Number, Range, Decimal;
    var r3 := " @@" + h.heading;
    var r2 := Range(h.newStart, NewCount(h.lines)) + r3;
    var r1 := Range(h.oldStart, OldCount(h.lines)) + (" +" + r2);
    var s := HunkHeader(h);
    assert s == "@@ -" + r1 && s[4..] == r1;
    RangeIsSkipped(h.oldStart, OldCount(h.lines), " +" + r2);
    assert (" +" + r2)[2..] == r2;
    RangeIsSkipped(h.newStart, NewCount(h.lines), r3);
    NumberOfDecimal(h.newStart);
    assert s[0] == '@';
    WithoutPlus(s);
  }

  // ----- The lines of one hunk

  /** What the parser makes of the lines of a hunk: a marker counts as a line. */
  function Counted(path: string, n: nat, lines: seq<Line>): seq<AddedLine>
    decreases |lines|
  {
    if lines == [] then []
    else
      (if lines[0].Add? then [AddedLine(path, n, lines[0].text)] else [])
      + Counted(path, if lines[0].Delete? then n else n + 1, lines[1..])
  }

  lemma LineIsRead(path: string, n: nat, l: Line)
    requires l.Add? ==> !StartsWith(l.text, "++")
    ensures var s := State(Some(path), Some(n));
      && Yield(s, RenderLine(l)) == (if l.Add? then [AddedLine(path, n, l.text)] else [])
      && Next(s, RenderLine(l)) == State(Some(path), Some(if l.Delete? then n else n + 1))
  {
    var raw := RenderLine(l);
    WithoutAt(raw);
    if l.Add? {
      assert raw[1..] == l.text;
      PlusesShift(l.text);
      PlusThree(raw);
      assert StartsWith(raw, "+");
      FirstCharacter(raw, "-");
    } else {
      WithoutPlus(raw);
      FirstCharacter(raw, "-");
      assert l.Delete? ==> StartsWith(raw, "-");
    }
  }

  lemma PlusesShift(text: string)
    ensures StartsWith("+" + text, "+++") <==> StartsWith(text, "++")
  {
    var raw := "+" + text;
    if |text| >= 2 {
      assert raw[..3] == "+" + text[..2];
      assert "+++" == "+" + "++";
      assert raw[..3][1..] == text[..2];
    }
  }

  lemma PlusThree(raw: string)
    requires !StartsWith(raw, "+++")
    ensures !StartsWith(raw, NEW_FILE) && !StartsWith(raw, NO_FILE)
  {
    ShorterPrefix(raw, NEW_FILE, "+++");
    ShorterPrefix(raw, NO_FILE, "+++");
  }

  lemma {:induction false} ParseAppend(s: State, a: seq<string>, b: seq<string>)
    ensures Parse(s, a + b) == Parse(s, a) + Parse(After(s, a), b)
    ensures After(s, a + b) == After(After(s, a), b)
    decreases |a|
  {
    hide Yield, Next;
    if a == [] {
      assert a + b == b;
    } else {
      assert (a + b)[1..] == a[1..] + b;
      ParseAppend(Next(s, a[0]), a[1..], b);
    }
  }

  lemma {:induction false} LinesAreRead(path: string, n: nat, lines: seq<Line>)
    requires NoDoublePlus(lines)
    ensures Parse(State(Some(path), Some(n)), RenderLines(lines)) == Counted(path, n, lines)
    ensures After(State(Some(path), Some(n)), RenderLines(lines)).path == Some(path)
    decreases |lines|
  {
    hide Yield, Next, RenderLine, StartsWith;
    if lines != [] {
      LineIsRead(path, n, lines[0]);
      LinesAreRead(path, if lines[0].Delete? then n else n + 1, lines[1..]);
      var raw := RenderLines(lines);
      assert raw[0] == RenderLine(lines[0]) && raw[1..] == RenderLines(lines[1..]);
    }
  }

  function CountedHunks(path: string, hunks: seq<Hunk>): seq<AddedLine> {
    if hunks == [] then [] else Counted(path, hunks[0].newStart, hunks[0].lines) + CountedHunks(path, hunks[1..])
  }

  function CountedFile(f: FileDiff): seq<AddedLine> {
    if f.newPath.None? then [] else CountedHunks(f.newPath.value, f.hunks)
  }

  function CountedDiff(d: seq<FileDiff>): seq<AddedLine> {
    if d == [] then [] else CountedFile(d[0]) + CountedDiff(d[1..])
  }

  lemma OneLine(s: State, raw: string)
    ensures Parse(s, [raw]) == Yield(s, raw) && After(s, [raw]) == Next(s, raw)
  {
    hide Yield, Next;
    assert [raw][1..] == [];
    assert Yield(s, raw) + [] == Yield(s, raw);
  }

  lemma HunkIsRead(path: string, line: Option<nat>, h: Hunk)
    requires NoDoublePlus(h.lines)
    ensures var s, raw := State(Some(path), line), [HunkHeader(h)] + RenderLines(h.lines);
      Parse(s, raw) == Counted(path, h.newStart, h.lines) && After(s, raw).path == Some(path)
  {
    hide NoDoublePlus, HunkHeader, Counted, StartsWith, SearchHunk, Parse, After, RenderLines;
    var s := State(Some(path), line);
    HeaderIsRead(h);
    OneLine(s, HunkHeader(h));
    LinesAreRead(path, h.newStart, h.lines);
    ParseAppend(s, [HunkHeader(h)], RenderLines(h.lines));
  }

  lemma {:induction false} HunksAreRead(path: string, line: Option<nat>, hunks: seq<Hunk>)
    requires forall i :: 0 <= i < |hunks| ==> NoDoublePlus(hunks[i].lines)
    ensures Parse(State(Some(path), line), RenderHunks(hunks)) == CountedHunks(path, hunks)
    decreases |hunks|
  {
    hide NoDoublePlus, HunkHeader, Counted, StartsWith, RenderLines, Yield, Next, After;
    if hunks != [] {
      hide Parse;
      var s, raw := State(Some(path), line), [HunkHeader(hunks[0])] + RenderLines(hunks[0].lines);
      HunkIsRead(path, line, hunks[0]);
      ParseAppend(s, raw, RenderHunks(hunks[1..]));
      HunksAreRead(path, After(s, raw).line, hunks[1..]);
      assert After(s, raw) == State(Some(path), After(s, raw).line);
    }
  }

  // ----- Whole files

  /** Lines that name no file, open no hunk and add nothing leave the parser in its file. */
  predicate Idle(raw: string) {
    !StartsWith(raw, NEW_FILE) && !StartsWith(raw, NO_FILE) && !StartsWith(raw, "@@") && !IsAdded(raw)
  }

  lemma {:induction false} IdleLines(s: State, lines: seq<string>)
    requires forall i :: 0 <= i < |lines| ==> Idle(lines[i])
    ensures Parse(s, lines) == [] && After(s, lines).path == s.path
    decreases |lines|
  {
    if lines != [] {
      IdleLines(Next(s, lines[0]), lines[1..]);
    }
  }

  /** Without a file nothing is read, whatever the hunks say. */
  lemma {:induction false} NoFileReadsNothing(line: Option<nat>, lines: seq<string>)
    requires NamesNothing(lines)
    ensures Parse(State(None, line), lines) == []
    decreases |lines|
  {
    if lines != [] {
      NoFileReadsNothing(Next(State(None, line), lines[0]).line, lines[1..]);
    }
  }

  ghost predicate NamesNothing(lines: seq<string>) {
    forall i :: 0 <= i < |lines| ==> !StartsWith(lines[i], NEW_FILE)
  }

  lemma {:induction false} WithoutAddsNoNames(lines: seq<Line>)
    requires Adds(lines) == 0
    ensures NamesNothing(RenderLines(lines))
  {
    hide StartsWith;
    if lines != [] {
      WithoutPlus(RenderLine(lines[0]));
      WithoutAddsNoNames(lines[1..]);
    }
  }

  lemma {:induction false} DeletedHunksNameNothing(hunks: seq<Hunk>)
    requires forall k :: 0 <= k < |hunks| ==> Adds(hunks[k].lines) == 0
    ensures NamesNothing(RenderHunks(hunks))
  {
    hide StartsWith, HunkHeader, Adds;
    if hunks != [] {
      HeaderIsRead(hunks[0]);
      WithoutAddsNoNames(hunks[0].lines);
      DeletedHunksNameNothing(hunks[1..]);
    }
  }

  lemma HeadersAreIdle(headers: seq<string>, oldName: string)
    requires forall i :: 0 <= i < |headers| ==> PlainHeader(headers[i])
    ensures forall i :: 0 <= i < |headers| ==> Idle(headers[i])
    ensures Idle("--- " + oldName)
  {
    forall i | 0 <= i < |headers| ensures Idle(headers[i]) {
      WithoutPlus(headers[i]);
      WithoutAt(headers[i]);
    }
    WithoutPlus("--- " + oldName);
    WithoutAt("--- " + oldName);
  }

  lemma NameIsRead(s: State, f: FileDiff)
    ensures Yield(s, NewName(f)) == [] && Next(s, NewName(f)) == State(f.newPath, None)
  {
    var raw := NewName(f);
    if f.newPath.Some? {
      assert raw[..|NEW_FILE|] == NEW_FILE && raw[|NEW_FILE|..] == f.newPath.value;
    } else {
      assert raw[..|NEW_FILE|][4] != NEW_FILE[4];
    }
  }

  lemma FileIsRead(s: State, f: FileDiff)
    requires PrintableFile(f) && (f.newPath.Some? ==> forall i :: 0 <= i < |f.hunks| ==> NoDoublePlus(f.hunks[i].lines))
    ensures Parse(s, RenderFile(f)) == CountedFile(f)
  {
    hide StartsWith, NoDoublePlus, Yield, Next, Idle, Counted;
    HeadersAreIdle(f.headers, f.oldName);
    IdleLines(s, f.headers);
    if f.hunks == [] {
      assert f.headers + [] == f.headers;
    } else {
      var t := After(s, f.headers);
      var names, rest := ["--- " + f.oldName, NewName(f)], RenderHunks(f.hunks);
      ParseAppend(s, f.headers, names + rest);
      NamesAreRead(t, f);
      ParseAppend(t, names, rest);
      if f.newPath.Some? {
        HunksAreRead(f.newPath.value, None, f.hunks);
      } else {
        assert forall k :: 0 <= k < |f.hunks| ==> PrintableHunk(f.hunks[k], true);
        DeletedHunksNameNothing(f.hunks);
        NoFileReadsNothing(None, rest);
      }
    }
  }

  lemma NamesAreRead(t: State, f: FileDiff)
    ensures var names := ["--- " + f.oldName, NewName(f)];
      Parse(t, names) == [] && After(t, names) == State(f.newPath, None)
  {
    hide StartsWith, Yield, Next, Idle;
    var first := "--- " + f.oldName;
    HeadersAreIdle([], f.oldName);
    IdleLines(t, [first]);
    OneLine(t, first);
    var u := Next(t, first);
    OneLine(u, NewName(f));
    NameIsRead(u, f);
    ParseAppend(t, [first], [NewName(f)]);
    assert [first] + [NewName(f)] == [first, NewName(f)];
  }

  lemma {:induction false} DiffIsRead(s: State, d: seq<FileDiff>)
    requires Printable(d)
    requires forall k :: 0 <= k < |d| && d[k].newPath.Some? ==>
      forall i :: 0 <= i < |d[k].hunks| ==> NoDoublePlus(d[k].hunks[i].lines)
    ensures Parse(s, RenderDiff(d)) == CountedDiff(d)
    decreases |d|
  {
    hide NoDoublePlus, PrintableFile, RenderFile, CountedFile;
    if d != [] {
      FileIsRead(s, d[0]);
      ParseAppend(s, RenderFile(d[0]), RenderDiff(d[1..]));
      DiffIsRead(After(s, RenderFile(d[0])), d[1..]);
    }
  }

  // ----- Exactness

  /** Reading counts nothing but lines that start with a single plus sign. */
  function Pluses(lines: seq<string>): nat {
    if lines == [] then 0 else (if IsAdded(lines[0]) then 1 else 0) + Pluses(lines[1..])
  }

  lemma {:induction false} PlusesAppend(a: seq<string>, b: seq<string>)
    ensures Pluses(a + b) == Pluses(a) + Pluses(b)
  {
    hide IsAdded;
    if a == [] {
      assert a + b == b;
    } else {
      assert (a + b)[1..] == a[1..] + b;
      PlusesAppend(a[1..], b);
    }
  }

  lemma {:induction false} ReadsAtMostPluses(s: State, lines: seq<string>)
    ensures |Parse(s, lines)| <= Pluses(lines)
    decreases |lines|
  {
    hide StartsWith, Next, IsAdded;
    if lines != [] {
      ReadsAtMostPluses(Next(s, lines[0]), lines[1..]);
    }
  }

  lemma {:induction false} LinesPluses(lines: seq<Line>)
    ensures Pluses(RenderLines(lines)) <= Adds(lines)
    ensures !NoDoublePlus(lines) ==> Pluses(RenderLines(lines)) < Adds(lines)
    decreases |lines|
  {
    hide StartsWith;
    if lines != [] {
      LinesPluses(lines[1..]);
      LinePlus(lines[0]);
      assert RenderLines(lines)[1..] == RenderLines(lines[1..]);
    }
  }

  lemma LinePlus(l: Line)
    ensures IsAdded(RenderLine(l)) <==> l.Add? && !StartsWith(l.text, "++")
  {
    if l.Add? {
      PlusesShift(l.text);
    } else {
      WithoutPlus(RenderLine(l));
    }
  }

  lemma {:induction false} IdleHaveNoPlus(lines: seq<string>)
    requires forall i :: 0 <= i < |lines| ==> Idle(lines[i])
    ensures Pluses(lines) == 0
  {
    hide StartsWith, IsAdded;
    if lines != [] {
      assert !IsAdded(lines[0]);
      IdleHaveNoPlus(lines[1..]);
    }
  }

  function HunkAdds(hunks: seq<Hunk>): nat {
    if hunks == [] then 0 else Adds(hunks[0].lines) + HunkAdds(hunks[1..])
  }

  predicate SinglePlusHunks(hunks: seq<Hunk>) {
    forall i :: 0 <= i < |hunks| ==> NoDoublePlus(hunks[i].lines)
  }

  lemma {:induction false} HunksPluses(hunks: seq<Hunk>)
    ensures Pluses(RenderHunks(hunks)) <= HunkAdds(hunks)
    ensures !SinglePlusHunks(hunks) ==> Pluses(RenderHunks(hunks)) < HunkAdds(hunks)
  {
    hide NoDoublePlus, HunkHeader, IsAdded, StartsWith;
    if hunks != [] {
      var header, body, rest := [HunkHeader(hunks[0])], RenderLines(hunks[0].lines), RenderHunks(hunks[1..]);
      HeaderIsRead(hunks[0]);
      assert header[1..] == [];
      PlusesAppend(header, body);
      PlusesAppend(header + body, rest);
      LinesPluses(hunks[0].lines);
      HunksPluses(hunks[1..]);
    }
  }

  lemma FilePluses(f: FileDiff)
    requires PrintableFile(f)
    ensures Pluses(RenderFile(f)) <= HunkAdds(f.hunks)
    ensures !SinglePlusHunks(f.hunks) ==> Pluses(RenderFile(f)) < HunkAdds(f.hunks)
  {
    hide NoDoublePlus, Idle, IsAdded, StartsWith;
    HeadersAreIdle(f.headers, f.oldName);
    IdleHaveNoPlus(f.headers);
    if f.hunks == [] {
      assert f.headers + [] == f.headers;
    } else {
      var names, rest := ["--- " + f.oldName, NewName(f)], RenderHunks(f.hunks);
      PlusesAppend(f.headers, names + rest);
      PlusesAppend(names, rest);
      HunksPluses(f.hunks);
      NamesHaveNoPlus(f);
    }
  }

  lemma NamesHaveNoPlus(f: FileDiff)
    ensures Pluses(["--- " + f.oldName, NewName(f)]) == 0
  {
    var names := ["--- " + f.oldName, NewName(f)];
    WithoutPlus(names[0]);
    assert names[1][..3] == "+++";
    assert names[1..] == [names[1]] && [names[1]][1..] == [];
    assert Pluses([names[1]]) == 0;
  }

  lemma {:induction false} AddedLength(path: string, n: nat, lines: seq<Line>)
    ensures |AddedIn(path, n, lines)| == |Counted(path, n, lines)| == Adds(lines)
    decreases |lines|
  {
    if lines != [] {
      AddedLength(path, if lines[0].Add? || lines[0].Context? then n + 1 else n, lines[1..]);
      AddedLength(path, if lines[0].Delete? then n else n + 1, lines[1..]);
    }
  }

  lemma {:induction false} NothingAdded(lines: seq<Line>)
    requires Adds(lines) == 0
    ensures MarkersLast(lines) && NoDoublePlus(lines)
  {
    if lines != [] {
      NothingAdded(lines[1..]);
    }
  }

  /** Counting markers as lines is right exactly while no line is added behind one. */
  lemma {:induction false} CountedExactly(path: string, n: nat, m: nat, lines: seq<Line>)
    requires m <= n
    ensures Counted(path, n, lines) == AddedIn(path, m, lines) <==>
      if n == m then MarkersLast(lines) else Adds(lines) == 0
    decreases |lines|
  {
    if lines != [] {
      var l, rest := lines[0], lines[1..];
      var n', m' := if l.Delete? then n else n + 1, if l.Add? || l.Context? then m + 1 else m;
      CountedExactly(path, n', m', rest);
      if l.Add? {
        SameParts([AddedLine(path, n, l.text)], Counted(path, n', rest), [AddedLine(path, m, l.text)],
          AddedIn(path, m', rest));
      } else {
        assert [] + Counted(path, n', rest) == Counted(path, n', rest)
          && [] + AddedIn(path, m', rest) == AddedIn(path, m', rest);
      }
      if Adds(rest) == 0 {
        NothingAdded(rest);
      }
    }
  }

  lemma SameParts<T>(a: seq<T>, b: seq<T>, c: seq<T>, d: seq<T>)
    requires |a| == |c|
    ensures a + b == c + d <==> a == c && b == d
  {
    if a + b == c + d {
      assert a == (a + b)[..|a|] && c == (c + d)[..|a|];
      assert b == (a + b)[|a|..] && d == (c + d)[|a|..];
    }
  }

  predicate MarkersLastHunks(hunks: seq<Hunk>) {
    forall i :: 0 <= i < |hunks| ==> MarkersLast(hunks[i].lines)
  }

  lemma {:induction false} CountedHunksExactly(path: string, hunks: seq<Hunk>)
    ensures CountedHunks(path, hunks) == AddedInHunks(path, hunks) <==> MarkersLastHunks(hunks)
    ensures |CountedHunks(path, hunks)| == |AddedInHunks(path, hunks)| == HunkAdds(hunks)
  {
    hide MarkersLast, Counted, AddedIn, Adds;
    if hunks != [] {
      var h := hunks[0];
      CountedExactly(path, h.newStart, h.newStart, h.lines);
      AddedLength(path, h.newStart, h.lines);
      CountedHunksExactly(path, hunks[1..]);
      SameParts(Counted(path, h.newStart, h.lines), CountedHunks(path, hunks[1..]), AddedIn(path, h.newStart, h.lines),
        AddedInHunks(path, hunks[1..]));
    }
  }

  lemma {:induction false} DeletedAddNothing(hunks: seq<Hunk>)
    requires forall k :: 0 <= k < |hunks| ==> Adds(hunks[k].lines) == 0
    ensures HunkAdds(hunks) == 0 && SinglePlusHunks(hunks)
  {
    if hunks != [] {
      DeletedAddNothing(hunks[1..]);
      NothingAdded(hunks[0].lines);
    }
  }

  /** What is read of one file, and how it compares with what the file adds. */
  lemma FileExactly(f: FileDiff)
    requires PrintableFile(f)
    ensures |CountedFile(f)| == |AddedInFile(f)| == HunkAdds(f.hunks)
    ensures SinglePlusHunks(f.hunks) ==> (CountedFile(f) == AddedInFile(f) <==> ReadableFile(f))
    ensures !SinglePlusHunks(f.hunks) ==> !ReadableFile(f)
  {
    hide NoDoublePlus, MarkersLast;
    if f.newPath.Some? {
      CountedHunksExactly(f.newPath.value, f.hunks);
    } else {
      assert forall k :: 0 <= k < |f.hunks| ==> PrintableHunk(f.hunks[k], true);
      DeletedAddNothing(f.hunks);
    }
  }

  predicate SinglePlus(d: seq<FileDiff>) {
    forall i :: 0 <= i < |d| ==> SinglePlusHunks(d[i].hunks)
  }

  lemma {:induction false} DiffExactly(d: seq<FileDiff>)
    requires Printable(d)
    ensures |CountedDiff(d)| == |AddedInDiff(d)|
    ensures SinglePlus(d) ==> (CountedDiff(d) == AddedInDiff(d) <==> Readable(d))
    ensures !SinglePlus(d) ==> !Readable(d) && Pluses(RenderDiff(d)) < |AddedInDiff(d)|
    ensures Pluses(RenderDiff(d)) <= |AddedInDiff(d)|
  {
    hide PrintableFile, ReadableFile, SinglePlusHunks, CountedFile, AddedInFile, RenderFile, HunkAdds;
    if d != [] {
      FileExactly(d[0]);
      FilePluses(d[0]);
      PlusesAppend(RenderFile(d[0]), RenderDiff(d[1..]));
      DiffExactly(d[1..]);
      SameParts(CountedFile(d[0]), CountedDiff(d[1..]), AddedInFile(d[0]), AddedInDiff(d[1..]));
    }
  }

  /** A printed diff is read back exactly when no added text starts with two plus signs and no line
      is added behind a missing-newline marker. */
  lemma ReadBackExactly(d: seq<FileDiff>)
    requires Printable(d)
    ensures Parse(START, SplitLines(Unlines(RenderDiff(d)))) == AddedInDiff(d) <==> Readable(d)
  {
    hide Printable, Readable, SinglePlus, NoDoublePlus, PrintableFile, RenderDiff, CountedDiff, AddedInDiff, Parse;
    LinesAreUnbroken(d);
    SplitUnlines(RenderDiff(d));
    DiffExactly(d);
    ReadsAtMostPluses(START, RenderDiff(d));
    SinglePluses(d);
    if SinglePlus(d) {
      DiffIsRead(START, d);
    }
  }

  const SAMPLE_LINES := [Context("u"), Delete("v"), Add("w"), Add("x")]
  const SAMPLE_HUNK := Hunk(1, 27, " g", SAMPLE_LINES)
  const SAMPLE_FILE := FileDiff(["diff --git a/f b/f"], "a/f", Some("f"), [SAMPLE_HUNK])

  /** A sample in full: the lines that are printed, and what is read from them. */
  lemma SampleIsStandard()
    ensures RenderDiff([SAMPLE_FILE]) ==
      ["diff --git a/f b/f", "--- a/f", "+++ b/f", "@@ -1,2 +27,3 @@ g", " u", "-v", "+w", "+x"]
    ensures Parse(START, RenderDiff([SAMPLE_FILE])) == [AddedLine("f", 28, "w"), AddedLine("f", 29, "x")]
  {
    SamplePrinted();
    SampleReadable();
    SampleAdds();
    hide Parse, RenderDiff, AddedInDiff, Readable, Printable, SplitLines, Unlines;
    ReadBackExactly([SAMPLE_FILE]);
    LinesAreUnbroken([SAMPLE_FILE]);
    SplitUnlines(RenderDiff([SAMPLE_FILE]));
  }

  lemma SampleTails()
    ensures SAMPLE_LINES[0] == Context("u") && SAMPLE_LINES[1..] == [Delete("v"), Add("w"), Add("x")]
    ensures [Delete("v"), Add("w"), Add("x")][1..] == [Add("w"), Add("x")]
    ensures [Add("w"), Add("x")][1..] == [Add("x")] && [Add("x")][1..] == []
  {
  }

  lemma SampleHeader()
    ensures HunkHeader(SAMPLE_HUNK) == "@@ -1,2 +27,3 @@ g"
  {
    SampleTails();
    var one, two, three := [Add("x")], [Add("w"), Add("x")], [Delete("v"), Add("w"), Add("x")];
    assert OldCount(one) == 0 && OldCount(two) == 0 && OldCount(three) == 1 && OldCount(SAMPLE_LINES) == 2;
    assert NewCount(one) == 1 && NewCount(two) == 2 && NewCount(three) == 2 && NewCount(SAMPLE_LINES) == 3;
    assert Decimal(27) == Decimal(2) + "7";
    assert Range(1, 2) == "1,2" && Range(27, 3) == "27,3";
    hide Decimal, Range, OldCount, NewCount;
  }

  lemma SamplePrinted()
    ensures RenderDiff([SAMPLE_FILE]) ==
      ["diff --git a/f b/f", "--- a/f", "+++ b/f", "@@ -1,2 +27,3 @@ g", " u", "-v", "+w", "+x"]
  {
    SampleTails();
    SampleHeader();
    hide HunkHeader;
    var one, two, three := [Add("x")], [Add("w"), Add("x")], [Delete("v"), Add("w"), Add("x")];
    assert RenderLine(Context("u")) == " u" && RenderLine(Delete("v")) == "-v";
    assert RenderLine(Add("w")) == "+w" && RenderLine(Add("x")) == "+x";
    hide RenderLine;
    assert RenderLines(one) == ["+x"] && RenderLines(two) == ["+w", "+x"];
    assert RenderLines(three) == ["-v", "+w", "+x"] && RenderLines(SAMPLE_LINES) == [" u", "-v", "+w", "+x"];
    hide RenderLines;
    assert [SAMPLE_HUNK][1..] == [] && RenderHunks([]) == [];
    assert RenderHunks([SAMPLE_HUNK]) == ["@@ -1,2 +27,3 @@ g", " u", "-v", "+w", "+x"];
    hide RenderHunks;
    assert [SAMPLE_FILE][1..] == [] && RenderDiff([]) == [] && [SAMPLE_FILE][0] == SAMPLE_FILE;
    assert NewName(SAMPLE_FILE) == "+++ b/f" && "--- " + "a/f" == "--- a/f";
    assert RenderDiff([SAMPLE_FILE]) == RenderFile(SAMPLE_FILE);
  }

  lemma SampleReadable()
    ensures Readable([SAMPLE_FILE]) && Printable([SAMPLE_FILE])
  {
    SampleTails();
    assert Unbroken("f") && Unbroken("a/f") && Unbroken(" g") && Unbroken("diff --git a/f b/f");
    assert NoDoublePlus([Add("x")]) && NoDoublePlus([Add("w"), Add("x")]);
    assert NoDoublePlus([Delete("v"), Add("w"), Add("x")]) && NoDoublePlus(SAMPLE_LINES);
    assert MarkersLast([Add("x")]) && MarkersLast([Add("w"), Add("x")]);
    assert MarkersLast([Delete("v"), Add("w"), Add("x")]) && MarkersLast(SAMPLE_LINES);
  }

  lemma SampleAdds()
    ensures AddedInDiff([SAMPLE_FILE]) == [AddedLine("f", 28, "w"), AddedLine("f", 29, "x")]
  {
    SampleTails();
    assert AddedIn("f", 29, [Add("x")]) == [AddedLine("f", 29, "x")];
    assert AddedIn("f", 28, [Add("w"), Add("x")]) == [AddedLine("f", 28, "w"), AddedLine("f", 29, "x")];
    assert AddedIn("f", 28, [Delete("v"), Add("w"), Add("x")]) == AddedIn("f", 28, [Add("w"), Add("x")]);
    assert AddedIn("f", 27, SAMPLE_LINES) == AddedIn("f", 28, [Delete("v"), Add("w"), Add("x")]);
    hide AddedIn;
    assert [SAMPLE_HUNK][1..] == [] && AddedInHunks("f", []) == [] && AddedInDiff([]) == [];
    assert AddedInHunks("f", [SAMPLE_HUNK]) == AddedIn("f", 27, SAMPLE_LINES);
    hide AddedInHunks;
    assert [SAMPLE_FILE][1..] == [] && [SAMPLE_FILE][0] == SAMPLE_FILE;
  }

  /** A replacement in a file that had no newline at its end, and an added text "++x". */
  lemma NotReadBack()
    ensures var shifted := [FileDiff([], "a/f", Some("f"), [Hunk(1, 1, "", [Delete("x"), NoNewline, Add("y")])])];
      Parse(START, SplitLines(Unlines(RenderDiff(shifted)))) != AddedInDiff(shifted)
    ensures var lost := [FileDiff([], "a/f", Some("f"), [Hunk(1, 1, "", [Add("++x")])])];
      Parse(START, SplitLines(Unlines(RenderDiff(lost)))) != AddedInDiff(lost)
  {
    hide Parse, SplitLines, Unlines, RenderDiff, AddedInDiff;
    var added := Add("y");
    var lines := [Delete("x"), NoNewline, added];
    assert lines[1..] == [NoNewline, added] && lines[1..][1..] == [added] && [added][1..] == [];
    assert Adds([added]) == 1 && !MarkersLast(lines[1..]) && !MarkersLast(lines);
    OneUnreadable(Hunk(1, 1, "", lines));
    assert "++x"[..2] == "++" && !NoDoublePlus([Add("++x")]);
    OneUnreadable(Hunk(1, 1, "", [Add("++x")]));
  }

  lemma OneUnreadable(h: Hunk)
    requires PrintableHunk(h, false) && !(NoDoublePlus(h.lines) && MarkersLast(h.lines))
    ensures var d := [FileDiff([], "a/f", Some("f"), [h])];
      Parse(START, SplitLines(Unlines(RenderDiff(d)))) != AddedInDiff(d)
  {
    hide Parse, SplitLines, Unlines, RenderDiff, AddedInDiff, NoDoublePlus, MarkersLast;
    var f := FileDiff([], "a/f", Some("f"), [h]);
    assert f.hunks[0] == h && !ReadableFile(f);
    assert [f][0] == f && !Readable([f]);
    ReadBackExactly([f]);
  }

  lemma SinglePluses(d: seq<FileDiff>)
    ensures SinglePlus(d) ==> forall k :: 0 <= k < |d| && d[k].newPath.Some? ==>
      forall i :: 0 <= i < |d[k].hunks| ==> NoDoublePlus(d[k].hunks[i].lines)
  {
  }

  // ----- Printed lines hold no separator

  predicate AllUnbroken(lines: seq<string>) {
    forall i :: 0 <= i < |lines| ==> Unbroken(lines[i])
  }

  lemma UnbrokenTogether(a: string, b: string)
    ensures Unbroken(a) && Unbroken(b) ==> Unbroken(a + b)
  {
  }

  lemma DecimalIsUnbroken(n: nat)
    ensures Unbroken(Decimal(n))
  {
    assert forall c :: IsDigit(c) ==> !IsBreak(c);
  }

  lemma HeaderIsUnbroken(h: Hunk)
    requires Unbroken(h.heading)
    ensures Unbroken(HunkHeader(h))
  {
    hide Decimal, Unbroken;
    RangeIsUnbroken(h.oldStart, OldCount(h.lines));
    RangeIsUnbroken(h.newStart, NewCount(h.lines));
    FixedParts();
    UnbrokenTogether(" @@", h.heading);
    var r3 := " @@" + h.heading;
    UnbrokenTogether(Range(h.newStart, NewCount(h.lines)), r3);
    var r2 := Range(h.newStart, NewCount(h.lines)) + r3;
    UnbrokenTogether(" +", r2);
    UnbrokenTogether(Range(h.oldStart, OldCount(h.lines)), " +" + r2);
    UnbrokenTogether("@@ -", Range(h.oldStart, OldCount(h.lines)) + (" +" + r2));
  }

  lemma FixedParts()
    ensures Unbroken("@@ -") && Unbroken(" +") && Unbroken(" @@") && Unbroken(",") && Unbroken("") && Unbroken(" ")
      && Unbroken("+") && Unbroken("-")
    ensures Unbroken("--- ") && Unbroken(NEW_FILE) && Unbroken(NO_FILE) && Unbroken("\\ No newline at end of file")
  {
  }

  lemma RangeIsUnbroken(start: nat, count: nat)
    ensures Unbroken(Range(start, count))
  {
    hide Decimal, Unbroken;
    DecimalIsUnbroken(start);
    DecimalIsUnbroken(count);
    FixedParts();
    UnbrokenTogether(",", Decimal(count));
    UnbrokenTogether(Decimal(start), if count == 1 then "" else "," + Decimal(count));
  }

  lemma {:induction false} HunkLinesUnbroken(lines: seq<Line>)
    requires forall i :: 0 <= i < |lines| ==> lines[i].NoNewline? || Unbroken(lines[i].text)
    ensures AllUnbroken(RenderLines(lines))
  {
    hide Unbroken;
    if lines != [] {
      FixedParts();
      if !lines[0].NoNewline? {
        UnbrokenTogether(" ", lines[0].text);
        UnbrokenTogether("+", lines[0].text);
        UnbrokenTogether("-", lines[0].text);
      }
      HunkLinesUnbroken(lines[1..]);
    }
  }

  lemma {:induction false} HunksUnbroken(hunks: seq<Hunk>, deleted: bool)
    requires forall i :: 0 <= i < |hunks| ==> PrintableHunk(hunks[i], deleted)
    ensures AllUnbroken(RenderHunks(hunks))
  {
    hide Unbroken, HunkHeader;
    if hunks != [] {
      assert PrintableHunk(hunks[0], deleted);
      HeaderIsUnbroken(hunks[0]);
      HunkLinesUnbroken(hunks[0].lines);
      HunksUnbroken(hunks[1..], deleted);
    }
  }

  lemma FileUnbroken(f: FileDiff)
    requires PrintableFile(f)
    ensures AllUnbroken(RenderFile(f))
  {
    hide Unbroken, PrintableHunk;
    HunksUnbroken(f.hunks, f.newPath.None?);
    FixedParts();
    UnbrokenTogether("--- ", f.oldName);
    if f.newPath.Some? {
      UnbrokenTogether(NEW_FILE, f.newPath.value);
    }
  }

  lemma {:induction false} LinesAreUnbroken(d: seq<FileDiff>)
    requires Printable(d)
    ensures forall i :: 0 <= i < |RenderDiff(d)| ==> Unbroken(RenderDiff(d)[i])
  {
    hide Unbroken, PrintableFile, RenderFile;
    if d != [] {
      FileUnbroken(d[0]);
      LinesAreUnbroken(d[1..]);
    }
  }
}
