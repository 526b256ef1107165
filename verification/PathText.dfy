/**
 Paths as text: splitting on a separator and joining again.
 */
module PathText {

  /** The pieces of `s` between separators; always at least one. */
  function Split(s: string, c: char): (r: seq<string>)
    ensures r != [] && forall i :: 0 <= i < |r| ==> c !in r[i]
  {
    if s == [] then [""]
    else
      var rest := Split(s[1..], c);
      if s[0] == c then [""] + rest else [[s[0]] + rest[0]] + rest[1..]
  }

  function Join(parts: seq<string>, c: char): string {
    if parts == [] then "" else if |parts| == 1 then parts[0] else parts[0] + [c] + Join(parts[1..], c)
  }

  lemma {:induction false} SplitOne(s: string, c: char)
    requires c !in s
    ensures Split(s, c) == [s]
  {
    if s != [] {
      assert s == [s[0]] + s[1..];
      SplitOne(s[1..], c);
    }
  }

  lemma {:induction false} SplitFirst(a: string, rest: string, c: char)
    requires c !in a
    ensures Split(a + [c] + rest, c) == [a] + Split(rest, c)
  {
    var s := a + [c] + rest;
    if a == [] {
      assert s[1..] == rest;
    } else {
      assert a == [a[0]] + a[1..];
      assert s[1..] == a[1..] + [c] + rest;
      SplitFirst(a[1..], rest, c);
    }
  }

  /** Splitting undoes joining when no part holds the separator. */
  lemma {:induction false} SplitJoin(parts: seq<string>, c: char)
    requires parts != [] && forall i :: 0 <= i < |parts| ==> c !in parts[i]
    ensures Split(Join(parts, c), c) == parts
  {
    if |parts| == 1 {
      SplitOne(parts[0], c);
    } else {
      SplitFirst(parts[0], Join(parts[1..], c), c);
      SplitJoin(parts[1..], c);
    }
  }

  /** Joining undoes splitting. */
  lemma {:induction false} JoinSplit(s: string, c: char)
    ensures Join(Split(s, c), c) == s
  {
    if s != [] {
      JoinSplit(s[1..], c);
      var rest := Split(s[1..], c);
      if s[0] == c {
        assert ([""] + rest)[1..] == rest;
      } else {
        assert Split(s, c)[1..] == rest[1..];
      }
    }
  }

  // ----- Relative paths

  /** A name a directory entry can have. */
  predicate LegalName(name: string) { name != "" && name != "." && name != ".." && '/' !in name }

  predicate GoodNames(p: seq<string>) {
    forall i :: 0 <= i < |p| ==> LegalName(p[i])
  }

  predicate GoodPath(p: seq<string>) { p != [] && GoodNames(p) }

  /** The path written with slashes. */
  function Text(p: seq<string>): string { Join(p, '/') }

  lemma TextIsUnique(p: seq<string>)
    requires GoodPath(p)
    ensures Split(Text(p), '/') == p
  {
    SplitJoin(p, '/');
  }

  function Proper(parts: seq<string>): (r: seq<string>)
    ensures forall i :: 0 <= i < |r| ==> r[i] in parts && r[i] != "" && r[i] != "."
  {
    if parts == [] then []
    else (if parts[0] == "" || parts[0] == "." then [] else [parts[0]]) + Proper(parts[1..])
  }
}
