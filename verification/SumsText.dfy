/**
 The text of a SHA256SUMS file: one line per file with its digest, two spaces and its path, and the
 reader that takes such a text apart again, line breaks of every kind included.
 */
module SumsText {
  import opened Basics
  import opened PathText
  import opened TextLines

  // ----- One line

  predicate IsSha256(s: string) {
    |s| == 64 && forall i :: 0 <= i < 64 ==> '0' <= s[i] <= '9' || 'a' <= s[i] <= 'f'
  }

  const HEX_DIGITS := "0123456789abcdef"

  /** Sixty-four lower-case hexadecimal digits. */
  lemma Sha256Exactly(s: string)
    ensures IsSha256(s) <==> |s| == 64 && forall c :: c in s ==> c in HEX_DIGITS
  {
    forall c ensures c in HEX_DIGITS <==> '0' <= c <= '9' || 'a' <= c <= 'f' {
      if '0' <= c <= '9' {
        assert HEX_DIGITS[c as int - '0' as int] == c;
      } else if 'a' <= c <= 'f' {
        assert HEX_DIGITS[10 + c as int - 'a' as int] == c;
      }
    }
    forall i | 0 <= i < |s| ensures s[i] in s {
    }
  }

  /** Where the first pair of spaces stands. */
  function Gap(s: string): (r: Option<nat>)
    ensures r.Some? ==> r.value + 2 <= |s|
  {
    if |s| < 2 then None
    else if s[0] == ' ' && s[1] == ' ' then Some(0)
    else
      var r := Gap(s[1..]);
      if r.None? then None else Some(r.value + 1)
  }

  lemma {:induction false} GapAfterDigest(digest: string, rest: string)
    requires ' ' !in digest
    ensures Gap(digest + "  " + rest) == Some(|digest|)
  {
    var s := digest + "  " + rest;
    if digest != [] {
      assert digest == [digest[0]] + digest[1..];
      assert s[1..] == digest[1..] + "  " + rest;
      GapAfterDigest(digest[1..], rest);
    }
  }

  // ----- Safe paths

  /** A path as the validator normalizes it: empty and "." steps are dropped. */
  function Normalized(value: string): string {
    var parts := Proper(Split(value, '/'));
    if parts == [] then "." else Text(parts)
  }

  predicate IsAbsolute(value: string) { value != [] && value[0] == '/' }

  /** Relative, normalized, and never stepping up. */
  predicate SafeRelativePath(value: string) {
    value != "" && value != "." && value != ".." && !IsAbsolute(value) && ".." !in Proper(Split(value, '/'))
    && Normalized(value) == value
  }

  lemma {:induction false} ProperKeeps(parts: seq<string>)
    requires forall i :: 0 <= i < |parts| ==> parts[i] != "" && parts[i] != "."
    ensures Proper(parts) == parts
  {
    if parts != [] {
      ProperKeeps(parts[1..]);
    }
  }

  lemma {:induction false} FirstIsEmptyWhenAbsolute(value: string)
    requires IsAbsolute(value)
    ensures Split(value, '/')[0] == ""
  {
  }

  /** The safe texts are exactly the texts of paths with legal names. */
  lemma SafeExactly(value: string)
    ensures SafeRelativePath(value) <==> GoodPath(Split(value, '/'))
  {
    var parts := Split(value, '/');
    JoinSplit(value, '/');
    if SafeRelativePath(value) {
      var kept := Proper(parts);
      assert kept != [];
      SplitJoin(kept, '/');
      assert parts == kept;
    }
    if GoodPath(parts) {
      ProperKeeps(parts);
      if IsAbsolute(value) {
        FirstIsEmptyWhenAbsolute(value);
      }
    }
  }

  // ----- The whole text

  function SumLine(digest: string, path: string): string { digest + "  " + path }

  /** The map from paths to digests, or None for any line out of form and any repeated path. */
  function ParseLines(lines: seq<string>): Option<map<string, string>> {
    if lines == [] then Some(map[])
    else
      var before, line := ParseLines(lines[..|lines| - 1]), lines[|lines| - 1];
      if before.None? then None
      else
        var gap := Gap(line);
        if gap.None? || !IsSha256(line[..gap.value]) || !SafeRelativePath(line[gap.value + 2..])
          || line[gap.value + 2..] in before.value then None
        else Some(before.value[line[gap.value + 2..] := line[..gap.value]])
  }

  /** A line is in form when it is a digest, two spaces and a safe path. */
  ghost predicate InForm(line: string, digest: string, path: string) {
    IsSha256(digest) && SafeRelativePath(path) && line == digest + "  " + path
  }

  ghost predicate SomeForm(line: string) {
    exists digest, path :: InForm(line, digest, path)
  }

  lemma FormIsRead(line: string)
    ensures SomeForm(line) <==>
      Gap(line).Some? && IsSha256(line[..Gap(line).value]) && SafeRelativePath(line[Gap(line).value + 2..])
    ensures forall digest, path :: InForm(line, digest, path) ==>
      Gap(line).Some? && digest == line[..Gap(line).value] && path == line[Gap(line).value + 2..]
  {
    hide SafeRelativePath, IsSha256;
    forall digest, path | InForm(line, digest, path)
      ensures Gap(line).Some? && digest == line[..Gap(line).value] && path == line[Gap(line).value + 2..]
    {
      NoSpaceInDigest(digest);
      GapAfterDigest(digest, path);
    }
    if Gap(line).Some? {
      GapIsSpaces(line);
      var g := Gap(line).value;
      assert line == line[..g] + "  " + line[g + 2..];
      if IsSha256(line[..g]) && SafeRelativePath(line[g + 2..]) {
        assert InForm(line, line[..g], line[g + 2..]);
      }
    }
  }

  lemma NoSpaceInDigest(digest: string)
    requires IsSha256(digest)
    ensures ' ' !in digest
  {
  }

  lemma {:induction false} GapIsSpaces(s: string)
    requires Gap(s).Some?
    ensures s[Gap(s).value] == ' ' && s[Gap(s).value + 1] == ' '
  {
    if !(s[0] == ' ' && s[1] == ' ') {
      GapIsSpaces(s[1..]);
    }
  }

  /** The lines have a map exactly when each is in form and no two name the same path; and then it has
      exactly what the lines say. */
  lemma {:induction false} ParsesExactly(lines: seq<string>)
    ensures ParseLines(lines).Some? <==> AllInForm(lines) && PathsDiffer(lines)
    ensures ParseLines(lines).Some? ==> forall path, digest ::
      path in ParseLines(lines).value && ParseLines(lines).value[path] == digest <==> Says(lines, digest, path)
  {
    hide InForm, Gap, IsSha256, SafeRelativePath, Says, PathsDiffer;
    if lines == [] {
      NothingSaid();
    } else {
      var front, last := lines[..|lines| - 1], lines[|lines| - 1];
      ParsesExactly(front);
      FormIsRead(last);
      assert lines == front + [last] && (AllInForm(lines) <==> AllInForm(front) && SomeForm(last));
      SaysMore(front, last);
      DifferMore(front, last);
      if ParseLines(front).Some? && SomeForm(last) {
        LastLine(front, last);
      }
    }
  }

  lemma NothingSaid()
    ensures PathsDiffer([]) && forall digest, path :: !Says([], digest, path)
  {
  }

  /** The last line is accepted exactly when its path is new. */
  lemma LastLine(front: seq<string>, last: string)
    requires ParseLines(front).Some? && SomeForm(last)
    requires forall path, digest ::
      path in ParseLines(front).value && ParseLines(front).value[path] == digest <==> Says(front, digest, path)
    ensures Gap(last).Some? && InForm(last, last[..Gap(last).value], last[Gap(last).value + 2..])
    ensures last[Gap(last).value + 2..] in ParseLines(front).value <==>
      exists d, e, path :: InForm(last, e, path) && Says(front, d, path)
  {
    hide ParseLines, Gap, IsSha256, SafeRelativePath, Says;
    FormIsRead(last);
    var digest, path :| InForm(last, digest, path);
    hide InForm;
    if path in ParseLines(front).value {
      assert Says(front, ParseLines(front).value[path], path);
    }
  }

  ghost predicate AllInForm(lines: seq<string>) {
    forall line :: line in lines ==> SomeForm(line)
  }

  ghost predicate PathsDiffer(lines: seq<string>) {
    forall i, j, d, e, path :: 0 <= i < j < |lines| && InForm(lines[i], d, path) ==> !InForm(lines[j], e, path)
  }

  ghost predicate Says(lines: seq<string>, digest: string, path: string) {
    exists line :: line in lines && InForm(line, digest, path)
  }

  lemma SaysMore(front: seq<string>, last: string)
    ensures forall digest, path :: Says(front + [last], digest, path) <==>
      Says(front, digest, path) || InForm(last, digest, path)
  {
    hide InForm;
    assert last in front + [last] && forall line :: line in front ==> line in front + [last];
  }

  lemma DifferMore(front: seq<string>, last: string)
    ensures PathsDiffer(front + [last]) <==>
      PathsDiffer(front) && forall d, e, path :: InForm(last, e, path) ==> !Says(front, d, path)
  {
    hide InForm;
    var lines := front + [last];
    assert lines[|front|] == last && forall i :: 0 <= i < |front| ==> lines[i] == front[i];
    if PathsDiffer(lines) {
      forall d, e, path | InForm(last, e, path) ensures !Says(front, d, path) {
        forall line | line in front ensures !InForm(line, d, path) {
          var i :| 0 <= i < |front| && front[i] == line;
          assert InForm(lines[|front|], e, path);
          assert lines[i] == line;
        }
      }
      forall i, j, d, e, path | 0 <= i < j < |front| && InForm(front[i], d, path) ensures !InForm(front[j], e, path) {
        assert lines[i] == front[i] && lines[j] == front[j];
      }
    } else {
      var i, j, d, e, path :| 0 <= i < j < |lines| && InForm(lines[i], d, path) && InForm(lines[j], e, path);
      assert front[i] == lines[i] && InForm(front[i], d, path);
      assert front[i] in front && Says(front, d, path);
      if j < |front| {
        assert InForm(front[j], e, path);
      }
    }
  }

  function ParseSums(text: string): Option<map<string, string>> { ParseLines(SplitLines(ReadText(text))) }

  /** The validator's loop over the lines. */
  method ReadSums(text: string) returns (r: Option<map<string, string>>)
    ensures r == ParseSums(text)
  {
    var lines, parsed, i := SplitLines(ReadText(text)), map[], 0;
    while i < |lines|
      invariant 0 <= i <= |lines| && ParseLines(lines[..i]) == Some(parsed)
    {
      hide SafeRelativePath, Gap, IsSha256;
      var gap := Gap(lines[i]);
      assert lines[..i + 1][..i] == lines[..i];
      FailsAtOnce(lines, i + 1);
      if gap.None? || !IsSha256(lines[i][..gap.value]) || !SafeRelativePath(lines[i][gap.value + 2..]) {
        return None;
      }
      if lines[i][gap.value + 2..] in parsed {
        return None;
      }
      parsed := parsed[lines[i][gap.value + 2..] := lines[i][..gap.value]];
      i := i + 1;
    }
    assert lines[..i] == lines;
    r := Some(parsed);
  }

  lemma {:induction false} FailsAtOnce(lines: seq<string>, k: nat)
    requires k <= |lines|
    ensures ParseLines(lines[..k]).None? ==> ParseLines(lines).None?
  {
    if k < |lines| {
      FailsAtOnce(lines[..|lines| - 1], k);
      assert lines[..|lines| - 1][..k] == lines[..k];
    } else {
      assert lines[..k] == lines;
    }
  }

  /** No path that was read holds a line break. */
  lemma {:induction false} ReadPathsAreUnbroken(lines: seq<string>, path: string)
    requires forall i :: 0 <= i < |lines| ==> Unbroken(lines[i])
    requires ParseLines(lines).Some? && path in ParseLines(lines).value
    ensures Unbroken(path)
  {
    var front, line := lines[..|lines| - 1], lines[|lines| - 1];
    var rest := line[Gap(line).value + 2..];
    if path == rest {
      assert forall i :: 0 <= i < |rest| ==> rest[i] == line[Gap(line).value + 2 + i];
    } else {
      ReadPathsAreUnbroken(front, path);
    }
  }
}
