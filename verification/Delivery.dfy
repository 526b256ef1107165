/**
 The delivery package: what the builder writes beside the payload, and what the validator on the
 host demands before it accepts a package. Both describe the same tree of files, once in a manifest
 and once in a SHA256SUMS text.
 */
module Delivery {
  import opened Basics
  import opened FileTree
  import opened Listings
  import opened Ordering
  import opened PathText
  import opened SumsText
  import opened TextLines

  type Files = map<Path, string>

  const MANIFEST_NAME := "delivery-manifest.json"
  const SUMS_NAME := "SHA256SUMS"
  const MANIFEST_PATH: Path := [MANIFEST_NAME]
  const SUMS_PATH: Path := [SUMS_NAME]
  const FIXTURE_SCHEMA := "seektalent.acceptance-fixture.v1"

  /** One decoded entry of the manifest's file list; None where the value has another type. */
  datatype RawEntry = RawEntry(path: Option<string>, size: Option<int>, sha: Option<string>) | NotAnObject

  datatype RawFixture = RawFixture(path: Option<string>, schema: Option<string>, sha: Option<string>)

  datatype Manifest = Manifest(schema: Option<int>, files: Option<seq<RawEntry>>, fixture: Option<RawFixture>)

  datatype Verdict = Accepted | ManifestIdentityMismatch | PayloadHashMismatch | FixtureIdentityMismatch

  function Name(p: Path): string
    requires p != []
  {
    p[|p| - 1]
  }

  ghost predicate GoodFiles(files: Files) {
    forall p :: p in files ==> GoodPath(p)
  }

  /** The files the manifest is about: everything not named like one of the two lists. */
  function Payload(files: Files): Files {
    map p | p in files && p != [] && Name(p) != MANIFEST_NAME && Name(p) != SUMS_NAME :: files[p]
  }

  /** The files the sums are about. */
  function Summed(files: Files): Files {
    map p | p in files && p != [] && Name(p) != SUMS_NAME :: files[p]
  }

  function Digests(files: Files, hash: string -> string): map<string, string> {
    map k | k in EntriesOf(files, hash) :: EntriesOf(files, hash)[k].1
  }

  // ----- The manifest's file list

  predicate EntryInForm(e: RawEntry) {
    && e.RawEntry? && e.path.Some? && SafeRelativePath(e.path.value) && e.size.Some? && e.size.value >= 0
    && e.sha.Some? && IsSha256(e.sha.value)
  }

  /** The list as a map, or None for an entry out of form and a repeated path. */
  function ListedFiles(entries: seq<RawEntry>): Option<Entries> {
    if entries == [] then Some(map[])
    else
      var before, e := ListedFiles(entries[..|entries| - 1]), entries[|entries| - 1];
      if before.None? || !EntryInForm(e) || e.path.value in before.value then None
      else Some(before.value[e.path.value := (e.size.value, e.sha.value)])
  }

  /** The entry says this of this path. */
  predicate SaysOf(e: RawEntry, path: string, size: nat, sha: string) {
    e == RawEntry(Some(path), Some(size), Some(sha))
  }

  ghost predicate SomeSays(entries: seq<RawEntry>, path: string, size: nat, sha: string) {
    exists e :: e in entries && SaysOf(e, path, size, sha)
  }

  /** The list is read exactly when every entry is in form and no path comes twice; and then the map has
      exactly what the entries say. */
  lemma {:induction false} ListedExactly(entries: seq<RawEntry>)
    ensures ListedFiles(entries).Some? <==>
      && (forall e :: e in entries ==> EntryInForm(e))
      && forall i, j :: 0 <= i < j < |entries| && entries[i].RawEntry? && entries[j].RawEntry? ==>
           entries[i].path != entries[j].path
    ensures ListedFiles(entries).Some? ==> forall path, size: nat, sha ::
      path in ListedFiles(entries).value && ListedFiles(entries).value[path] == (size, sha) <==>
        SomeSays(entries, path, size, sha)
  {
    hide SafeRelativePath, IsSha256;
    if entries != [] {
      var front, e := entries[..|entries| - 1], entries[|entries| - 1];
      ListedExactly(front);
      assert entries == front + [e];
      forall path, size: nat, sha
        ensures SomeSays(entries, path, size, sha) <==> SomeSays(front, path, size, sha) || SaysOf(e, path, size, sha)
      {
        assert e in entries && forall d :: d in front ==> d in entries;
      }
      if ListedFiles(front).Some? && EntryInForm(e) {
        RepeatedPath(front, ListedFiles(front).value, e.path.value);
      }
    }
  }

  lemma RepeatedPath(entries: seq<RawEntry>, m: Entries, path: string)
    requires forall e :: e in entries ==> EntryInForm(e)
    requires forall p, size: nat, sha :: p in m && m[p] == (size, sha) <==> SomeSays(entries, p, size, sha)
    ensures path in m <==> exists i :: 0 <= i < |entries| && entries[i].RawEntry? && entries[i].path == Some(path)
  {
    hide SafeRelativePath, IsSha256;
    if path in m {
      assert m[path] == (m[path].0, m[path].1) && SomeSays(entries, path, m[path].0, m[path].1);
      var e :| e in entries && SaysOf(e, path, m[path].0, m[path].1);
      var i :| 0 <= i < |entries| && entries[i] == e;
    }
    if i :| 0 <= i < |entries| && entries[i].RawEntry? && entries[i].path == Some(path) {
      var e := entries[i];
      assert e in entries && SaysOf(e, path, e.size.value, e.sha.value);
      assert SomeSays(entries, path, e.size.value, e.sha.value);
    }
  }

  lemma {:induction false} ListFailsAtOnce(entries: seq<RawEntry>, k: nat)
    requires k <= |entries|
    ensures ListedFiles(entries[..k]).None? ==> ListedFiles(entries).None?
  {
    if k < |entries| {
      ListFailsAtOnce(entries[..|entries| - 1], k);
      assert entries[..|entries| - 1][..k] == entries[..k];
    } else {
      assert entries[..k] == entries;
    }
  }

  method ReadList(entries: seq<RawEntry>) returns (r: Option<Entries>)
    ensures r == ListedFiles(entries)
  {
    hide EntryInForm;
    var expected: Entries, i := map[], 0;
    while i < |entries|
      invariant 0 <= i <= |entries| && ListedFiles(entries[..i]) == Some(expected)
    {
      var e := entries[i];
      assert entries[..i + 1][..i] == entries[..i];
      ListFailsAtOnce(entries, i + 1);
      InFormHas(e);
      if !EntryInForm(e) || e.path.value in expected {
        return None;
      }
      expected := expected[e.path.value := (e.size.value, e.sha.value)];
      i := i + 1;
    }
    assert entries[..i] == entries;
    r := Some(expected);
  }

  lemma InFormHas(e: RawEntry)
    ensures EntryInForm(e) ==> e.RawEntry? && e.path.Some? && e.size.Some? && e.size.value >= 0 && e.sha.Some?
  {
  }

  // ----- The validator

  /** The fixture named by the manifest is a payload file with the declared digest and schema;
      `schemaOf` is the schema version read from a fixture's content. */
  ghost predicate FixtureInForm(fixture: RawFixture, expected: Entries, files: Files,
                                schemaOf: string -> Option<string>) {
    && fixture.path.Some? && fixture.path.value in expected
    && fixture.schema == Some(FIXTURE_SCHEMA) && fixture.sha.Some? && IsSha256(fixture.sha.value)
    && expected[fixture.path.value].1 == fixture.sha.value
    && Split(fixture.path.value, '/') in files
    && schemaOf(files[Split(fixture.path.value, '/')]) == Some(FIXTURE_SCHEMA)
  }

  /** What an accepted package is: both lists are exact, and the fixture is the declared one. */
  ghost predicate Valid(files: Files, manifest: Manifest, hash: string -> string, schemaOf: string -> Option<string>) {
    && manifest.schema == Some(2) && manifest.files.Some? && manifest.fixture.Some?
    && ListedFiles(manifest.files.value) == Some(EntriesOf(Payload(files), hash))
    && FixtureInForm(manifest.fixture.value, EntriesOf(Payload(files), hash), files, schemaOf)
    && SUMS_PATH in files && ParseSums(files[SUMS_PATH]) == Some(Digests(Summed(files), hash))
  }

  /** The manifest is of the known schema and its list can be read. */
  ghost predicate Readable(manifest: Manifest) {
    && manifest.schema == Some(2) && manifest.files.Some? && manifest.fixture.Some?
    && ListedFiles(manifest.files.value).Some?
  }

  method Validate(files: Files, manifest: Manifest, hash: string -> string, schemaOf: string -> Option<string>)
    returns (verdict: Verdict)
    requires GoodFiles(files)
    ensures verdict.Accepted? <==> Valid(files, manifest, hash, schemaOf)
    ensures verdict.ManifestIdentityMismatch? <==> !Readable(manifest)
    ensures verdict.FixtureIdentityMismatch? <==>
      && Readable(manifest) && ListedFiles(manifest.files.value) == Some(EntriesOf(Payload(files), hash))
      && !FixtureInForm(manifest.fixture.value, EntriesOf(Payload(files), hash), files, schemaOf)
  {
    hide ParseSums, EntriesOf, SafeRelativePath;
    if manifest.schema != Some(2) || manifest.files.None? || manifest.fixture.None? {
      return ManifestIdentityMismatch;
    }
    var expected := ReadList(manifest.files.value);
    if expected.None? {
      return ManifestIdentityMismatch;
    }
    var actual := Payload(files);
    var matched := MatchesList(actual, expected.value, hash);
    if !matched {
      return PayloadHashMismatch;
    }
    var fixture := manifest.fixture.value;
    if fixture.path.None? || fixture.path.value !in expected.value || fixture.schema != Some(FIXTURE_SCHEMA)
       || fixture.sha.None? || !IsSha256(fixture.sha.value)
         || expected.value[fixture.path.value].1 != fixture.sha.value {
      return FixtureIdentityMismatch;
    }
    var fixturePath := Split(fixture.path.value, '/');
    if fixturePath !in files || schemaOf(files[fixturePath]) != Some(FIXTURE_SCHEMA) {
      return FixtureIdentityMismatch;
    }
    if SUMS_PATH !in files {
      return PayloadHashMismatch;
    }
    var sums := ReadSums(files[SUMS_PATH]);
    if sums != Some(Digests(Summed(files), hash)) {
      return PayloadHashMismatch;
    }
    verdict := Accepted;
  }

  /** The two comparisons of the code: the same paths, then size and digest of every file. */
  method MatchesList(actual: Files, expected: Entries, hash: string -> string) returns (ok: bool)
    requires GoodFiles(actual)
    ensures ok <==> expected == EntriesOf(actual, hash)
  {
    hide Text, Split, EntriesOf;
    var paths := set p | p in actual :: Text(p);
    forall k ensures k in EntriesOf(actual, hash) <==> k in paths {
      EntryKeys(actual, hash, k);
    }
    if paths != expected.Keys {
      return false;
    }
    var left := actual.Keys;
    while left != {}
      invariant left <= actual.Keys
      invariant forall p :: p in actual && p !in left ==> expected[Text(p)] == (|actual[p]|, hash(actual[p]))
      decreases |left|
    {
      var p :| p in left;
      EntriesHas(actual, hash, p);
      if expected[Text(p)].0 != |actual[p]| || expected[Text(p)].1 != hash(actual[p]) {
        return false;
      }
      left := left - {p};
    }
    forall k | k in expected ensures expected[k] == EntriesOf(actual, hash)[k] {
      var p :| p in actual && Text(p) == k;
      EntriesHas(actual, hash, p);
    }
    ok := true;
  }

  // ----- The builder

  datatype Entry = Entry(path: string, size: nat, sha: string)

  function EntryOf(files: Files, p: Path, hash: string -> string): Entry
    requires p in files
  {
    Entry(Text(p), |files[p]|, hash(files[p]))
  }

  function EntriesAlong(files: Files, paths: seq<Path>, hash: string -> string): seq<Entry>
    requires forall i :: 0 <= i < |paths| ==> paths[i] in files
  {
    if paths == [] then []
    else EntriesAlong(files, paths[..|paths| - 1], hash) + [EntryOf(files, paths[|paths| - 1], hash)]
  }

  function SortedPaths(files: Files): (r: seq<Path>)
    ensures forall p :: p in r <==> p in files
    ensures forall i :: 0 <= i < |r| ==> r[i] in files
    ensures Ascending(r, PathBefore)
  {
    PathsAreOrdered();
    var r := SortedBy(files.Keys, PathBefore);
    assert forall i :: 0 <= i < |r| ==> r[i] in r;
    r
  }

  /** Every file of the package, in path order. */
  method FileManifest(files: Files, hash: string -> string) returns (entries: seq<Entry>)
    ensures entries == EntriesAlong(files, SortedPaths(files), hash)
  {
    hide PathBefore;
    var paths, i := SortedPaths(files), 0;
    entries := [];
    while i < |paths|
      invariant 0 <= i <= |paths| && entries == EntriesAlong(files, paths[..i], hash)
    {
      assert paths[..i + 1][..i] == paths[..i];
      entries := entries + [EntryOf(files, paths[i], hash)];
      i := i + 1;
    }
    assert paths[..i] == paths;
  }

  /** One line per entry but that of the sums file itself. */
  function SumLines(entries: seq<Entry>): seq<string> {
    if entries == [] then []
    else
      var e := entries[|entries| - 1];
      SumLines(entries[..|entries| - 1]) + if e.path == SUMS_NAME then [] else [SumLine(e.sha, e.path)]
  }

  function SumsOf(files: Files, hash: string -> string): string {
    Join(SumLines(EntriesAlong(files, SortedPaths(files), hash)), '\n') + "\n"
  }

  function Raw(entries: seq<Entry>): seq<RawEntry> {
    if entries == [] then []
    else
      var e := entries[|entries| - 1];
      Raw(entries[..|entries| - 1]) + [RawEntry(Some(e.path), Some(e.size), Some(e.sha))]
  }

  function ManifestFor(payload: Files, fixture: Path, hash: string -> string): Manifest
    requires fixture in payload
  {
    Manifest(Some(2), Some(Raw(EntriesAlong(payload, SortedPaths(payload), hash))),
             Some(RawFixture(Some(Text(fixture)), Some(FIXTURE_SCHEMA), Some(hash(payload[fixture])))))
  }

  function WithManifest(payload: Files, fixture: Path, hash: string -> string, render: Manifest -> string): Files
    requires fixture in payload
  {
    payload[MANIFEST_PATH := render(ManifestFor(payload, fixture, hash))]
  }

  function Package(payload: Files, fixture: Path, hash: string -> string, render: Manifest -> string): Files
    requires fixture in payload
  {
    var body := WithManifest(payload, fixture, hash, render);
    body[SUMS_PATH := SumsOf(body, hash)]
  }

  /** Writes the manifest beside the payload, then the sums of everything written so far. */
  method Build(payload: Files, fixture: Path, hash: string -> string, render: Manifest -> string)
    returns (package: Files, manifest: Manifest)
    requires fixture in payload
    ensures manifest == ManifestFor(payload, fixture, hash) && package == Package(payload, fixture, hash, render)
    ensures package.Keys == payload.Keys + {MANIFEST_PATH, SUMS_PATH} && package[MANIFEST_PATH] == render(manifest)
    ensures forall p :: p in payload && p != MANIFEST_PATH && p != SUMS_PATH ==> package[p] == payload[p]
  {
    hide EntriesAlong, Raw, Text, SortedPaths;
    var entries := FileManifest(payload, hash);
    manifest := Manifest(Some(2), Some(Raw(entries)),
      Some(RawFixture(Some(Text(fixture)), Some(FIXTURE_SCHEMA), Some(hash(payload[fixture])))));
    package := payload[MANIFEST_PATH := render(manifest)];
    var lines := FileManifest(package, hash);
    package := package[SUMS_PATH := Join(SumLines(lines), '\n') + "\n"];
  }

  // ----- Both lists read back

  /** The digest is printed as 64 lower-case hexadecimal digits. */
  ghost predicate Hexadecimal(hash: string -> string) {
    forall c :: IsSha256(hash(c))
  }

  function FilesAlong(files: Files, paths: seq<Path>): Files {
    map p | p in files && p in paths :: files[p]
  }

  lemma FilesAlongStep(files: Files, paths: seq<Path>)
    requires paths != [] && paths[|paths| - 1] in files && Distinct(paths)
    ensures var front, p := paths[..|paths| - 1], paths[|paths| - 1];
      FilesAlong(files, paths) == FilesAlong(files, front)[p := files[p]] && p !in FilesAlong(files, front)
  {
    var front, p := paths[..|paths| - 1], paths[|paths| - 1];
    assert paths == front + [p];
  }

  lemma PathIsSafe(p: Path)
    requires GoodPath(p)
    ensures SafeRelativePath(Text(p)) && Split(Text(p), '/') == p
  {
    TextIsUnique(p);
    SafeExactly(Text(p));
  }

  lemma {:induction false} ListReadsBack(files: Files, paths: seq<Path>, hash: string -> string)
    requires GoodFiles(files) && Hexadecimal(hash) && Distinct(paths)
      && forall i :: 0 <= i < |paths| ==> paths[i] in files
    ensures ListedFiles(Raw(EntriesAlong(files, paths, hash))) == Some(EntriesOf(FilesAlong(files, paths), hash))
  {
    hide SafeRelativePath, EntriesOf, IsSha256, Text, Split;
    if paths == [] {
      NothingAlong(files, hash);
    } else {
      var front, p := paths[..|paths| - 1], paths[|paths| - 1];
      ListReadsBack(files, front, hash);
      FilesAlongStep(files, paths);
      PathIsSafe(p);
      EntriesHas(FilesAlong(files, front), hash, p);
      EntriesAdd(FilesAlong(files, front), hash, p, files[p]);
      RawStep(files, paths, hash);
    }
  }

  lemma NothingAlong(files: Files, hash: string -> string)
    ensures EntriesOf(FilesAlong(files, []), hash) == map[]
  {
  }

  lemma RawStep(files: Files, paths: seq<Path>, hash: string -> string)
    requires paths != [] && forall i :: 0 <= i < |paths| ==> paths[i] in files
    ensures var p := paths[|paths| - 1];
      Raw(EntriesAlong(files, paths, hash)) ==
      Raw(EntriesAlong(files, paths[..|paths| - 1], hash))
        + [RawEntry(Some(Text(p)), Some(|files[p]|), Some(hash(files[p])))]
  {
    var entries := EntriesAlong(files, paths, hash);
    assert entries[..|entries| - 1] == EntriesAlong(files, paths[..|paths| - 1], hash);
  }

  lemma SumLinesStep(files: Files, paths: seq<Path>, hash: string -> string)
    requires paths != [] && forall i :: 0 <= i < |paths| ==> paths[i] in files
    ensures var p := paths[|paths| - 1];
      SumLines(EntriesAlong(files, paths, hash)) ==
      SumLines(EntriesAlong(files, paths[..|paths| - 1], hash))
        + if Text(p) == SUMS_NAME then [] else [SumLine(hash(files[p]), Text(p))]
  {
    var entries := EntriesAlong(files, paths, hash);
    assert entries[..|entries| - 1] == EntriesAlong(files, paths[..|paths| - 1], hash);
  }

  /** One line is read as the digest and the path it was written from. */
  lemma LineReadsBack(digest: string, path: string)
    requires IsSha256(digest)
    ensures var line := SumLine(digest, path);
      && Gap(line) == Some(64) && line[..64] == digest && line[66..] == path
      && (Unbroken(path) ==> Unbroken(line))
  {
    assert ' ' !in digest;
    GapAfterDigest(digest, path);
    var line := SumLine(digest, path);
    forall i | 0 <= i < |line| && Unbroken(path) ensures !IsBreak(line[i]) {
      if i >= 66 {
        assert line[i] == path[i - 66];
      }
    }
  }

  lemma DigestsAdd(files: Files, hash: string -> string, p: Path, c: string)
    requires GoodFiles(files) && GoodPath(p)
    ensures Digests(files[p := c], hash) == Digests(files, hash)[Text(p) := hash(c)]
    ensures p !in files ==> Text(p) !in Digests(files, hash)
  {
    hide EntriesOf, Text;
    EntriesAdd(files, hash, p, c);
    EntriesHas(files, hash, p);
  }

  lemma {:induction false} SumsReadBack(files: Files, paths: seq<Path>, hash: string -> string)
    requires GoodFiles(files) && Hexadecimal(hash) && Distinct(paths)
      && forall i :: 0 <= i < |paths| ==> paths[i] in files
    requires forall i :: 0 <= i < |paths| ==> Unbroken(Text(paths[i])) && Text(paths[i]) != SUMS_NAME
    ensures var lines := SumLines(EntriesAlong(files, paths, hash));
      && ParseLines(lines) == Some(Digests(FilesAlong(files, paths), hash)) && |lines| == |paths|
      && forall i :: 0 <= i < |lines| ==> Unbroken(lines[i])
  {
    hide SafeRelativePath, EntriesOf, IsSha256, Text, Split, Gap, Unbroken, Digests, SumLine;
    if paths == [] {
      NothingAlong(files, hash);
      assert Digests(FilesAlong(files, []), hash) == map[] by { NoDigests(files, hash); }
    } else {
      var front, p := paths[..|paths| - 1], paths[|paths| - 1];
      SumsReadBack(files, front, hash);
      FilesAlongStep(files, paths);
      PathIsSafe(p);
      DigestsAdd(FilesAlong(files, front), hash, p, files[p]);
      SumLinesStep(files, paths, hash);
      LineReadsBack(hash(files[p]), Text(p));
      var lines := SumLines(EntriesAlong(files, front, hash));
      assert (lines + [SumLine(hash(files[p]), Text(p))])[..|lines|] == lines;
    }
  }

  lemma NoDigests(files: Files, hash: string -> string)
    ensures Digests(FilesAlong(files, []), hash) == map[]
  {
    NothingAlong(files, hash);
  }

  lemma SortedPathsAreDistinct(files: Files)
    ensures Distinct(SortedPaths(files)) && FilesAlong(files, SortedPaths(files)) == files
  {
    PathsAreOrdered();
    AscendingIsDistinct(SortedPaths(files), PathBefore);
  }

  /** The written sums parse back to the digests of every file, line breaks in paths aside. */
  lemma WrittenSumsReadBack(files: Files, hash: string -> string)
    requires GoodFiles(files) && Hexadecimal(hash) && files != map[] && SUMS_PATH !in files
    requires forall p :: p in files ==> Unbroken(Text(p))
    ensures ParseSums(SumsOf(files, hash)) == Some(Digests(files, hash))
  {
    hide EntriesOf, Text, Unbroken, Digests, SortedPaths, SplitLines, ReadText, ParseLines, SumLines;
    var paths := SortedPaths(files);
    SortedPathsAreDistinct(files);
    forall i | 0 <= i < |paths| ensures Unbroken(Text(paths[i])) && Text(paths[i]) != SUMS_NAME {
      OnlySumsPath(paths[i]);
    }
    SumsReadBack(files, paths, hash);
    var lines := SumLines(EntriesAlong(files, paths, hash));
    var some :| some in files;
    assert some in paths;
    JoinedWithEnd(lines);
    SplitUnlines(lines);
    ReadPlain(Unlines(lines));
  }

  lemma OnlySumsPath(p: Path)
    requires GoodPath(p)
    ensures Text(p) == SUMS_NAME ==> p == SUMS_PATH
  {
    TextIsUnique(p);
    TextIsUnique(SUMS_PATH);
  }

  // ----- Builder and validator agree

  /** No payload file is named like one of the two lists, at any depth, and no path holds a line break. */
  ghost predicate Deliverable(payload: Files) {
    forall p :: p in payload && p != [] ==> Name(p) != MANIFEST_NAME && Name(p) != SUMS_NAME && Unbroken(Text(p))
  }

  /** The payload of a built package is what was put in, less the reserved names. */
  lemma BuiltPayload(payload: Files, fixture: Path, hash: string -> string, render: Manifest -> string)
    requires GoodFiles(payload) && fixture in payload
    ensures Payload(Package(payload, fixture, hash, render)) == Payload(payload)
    ensures (forall p :: p in payload ==> Name(p) != MANIFEST_NAME && Name(p) != SUMS_NAME) ==>
      && Payload(payload) == payload
      && Summed(Package(payload, fixture, hash, render)) == WithManifest(payload, fixture, hash, render)
      && SUMS_PATH !in WithManifest(payload, fixture, hash, render)
  {
    hide SumsOf, ManifestFor;
  }

  /** A reserved name anywhere in the payload makes the manifest list disagree with the package. */
  lemma ReservedIsMissed(payload: Files, hash: string -> string)
    requires GoodFiles(payload) && EntriesOf(payload, hash) == EntriesOf(Payload(payload), hash)
    ensures forall p :: p in payload ==> Name(p) != MANIFEST_NAME && Name(p) != SUMS_NAME
  {
    hide EntriesOf;
    forall p | p in payload ensures p in Payload(payload) {
      EntriesHas(payload, hash, p);
      EntriesHas(Payload(payload), hash, p);
    }
  }

  /** The validator accepts what the builder writes exactly when the payload is deliverable. */
  lemma BuiltIsAccepted(payload: Files, fixture: Path, hash: string -> string, render: Manifest -> string,
                        schemaOf: string -> Option<string>)
    requires GoodFiles(payload) && fixture in payload && Hexadecimal(hash)
    requires schemaOf(payload[fixture]) == Some(FIXTURE_SCHEMA)
    ensures Valid(Package(payload, fixture, hash, render), ManifestFor(payload, fixture, hash), hash, schemaOf) <==>
      Deliverable(payload)
  {
    hide EntriesOf, Text, Unbroken, SortedPaths, ParseSums, SumsOf, Split, IsSha256, Raw, EntriesAlong;
    hide ListedFiles, Payload, Summed, Digests;
    var package, body := Package(payload, fixture, hash, render), WithManifest(payload, fixture, hash, render);
    SortedPathsAreDistinct(payload);
    ListReadsBack(payload, SortedPaths(payload), hash);
    BuiltPayload(payload, fixture, hash, render);
    if EntriesOf(payload, hash) == EntriesOf(Payload(payload), hash) {
      ReservedIsMissed(payload, hash);
      BodyPaths(payload, fixture, hash, render);
      if Deliverable(payload) {
        assert fixture in body;
        WrittenSumsReadBack(body, hash);
        EntriesHas(payload, hash, fixture);
        TextIsUnique(fixture);
      }
      if ParseSums(package[SUMS_PATH]) == Some(Digests(body, hash)) {
        DigestsAreUnbroken(package[SUMS_PATH], body, hash);
      }
    }
  }

  lemma BodyPaths(payload: Files, fixture: Path, hash: string -> string, render: Manifest -> string)
    requires GoodFiles(payload) && fixture in payload
    ensures GoodFiles(WithManifest(payload, fixture, hash, render)) && Unbroken(Text(MANIFEST_PATH))
  {
    hide ManifestFor, Text, Unbroken, GoodPath;
    ManifestNameIsLegal();
  }

  lemma ManifestNameIsLegal()
    ensures GoodPath(MANIFEST_PATH) && Unbroken(Text(MANIFEST_PATH))
  {
    assert Text(MANIFEST_PATH) == MANIFEST_NAME;
  }

  lemma DigestsAreUnbroken(text: string, files: Files, hash: string -> string)
    requires GoodFiles(files) && ParseSums(text) == Some(Digests(files, hash))
    ensures forall p :: p in files ==> Unbroken(Text(p))
  {
    hide EntriesOf, Text, Unbroken, ReadText, SplitLines, ParseLines;
    forall p | p in files ensures Unbroken(Text(p)) {
      EntriesHas(files, hash, p);
      ReadPathsAreUnbroken(SplitLines(ReadText(text)), Text(p));
    }
  }

  // ----- What acceptance means

  /** Two packages accepted with one manifest hold the same payload; with the same sums too they are
      the same files, except those named like the sums file below the root, which no list covers. */
  lemma AcceptedIsAsListed(a: Files, b: Files, manifest: Manifest, hash: string -> string,
                           schemaOf: string -> Option<string>)
    requires GoodFiles(a) && GoodFiles(b) && NoCollision(a, b, hash)
    requires Valid(a, manifest, hash, schemaOf) && Valid(b, manifest, hash, schemaOf)
    ensures Payload(a) == Payload(b)
    ensures a[SUMS_PATH] == b[SUMS_PATH] ==> Summed(a) == Summed(b)
  {
    hide EntriesOf, ParseSums, ListedFiles, FixtureInForm;
    EntriesDetermineFiles(Payload(a), Payload(b), hash);
    if a[SUMS_PATH] == b[SUMS_PATH] {
      DigestsDetermine(Summed(a), Summed(b), hash);
    }
  }

  lemma DigestsDetermine(f: Files, g: Files, hash: string -> string)
    requires GoodFiles(f) && GoodFiles(g) && NoCollision(f, g, hash) && Digests(f, hash) == Digests(g, hash)
    ensures f == g
  {
    hide EntriesOf, Text;
    forall p ensures p in f <==> p in g {
      if p in f || p in g {
        EntriesHas(f, hash, p);
        EntriesHas(g, hash, p);
        assert Text(p) in Digests(f, hash) <==> Text(p) in Digests(g, hash);
      }
    }
    forall p | p in f ensures f[p] == g[p] {
      EntriesHas(f, hash, p);
      EntriesHas(g, hash, p);
      assert Digests(f, hash)[Text(p)] == Digests(g, hash)[Text(p)];
    }
  }

  /** Neither list covers a file named like the sums file below the root. */
  lemma NestedSumsAreUnlisted(files: Files, manifest: Manifest, hash: string -> string,
                              schemaOf: string -> Option<string>, p: Path, content: string)
    requires GoodFiles(files) && GoodPath(p) && |p| > 1 && Name(p) == SUMS_NAME
      && Valid(files, manifest, hash, schemaOf)
    ensures Valid(files[p := content], manifest, hash, schemaOf)
  {
    hide EntriesOf, ParseSums, ListedFiles, Digests, Text;
    var more := files[p := content];
    assert Payload(more) == Payload(files) && Summed(more) == Summed(files);
    var fixture := manifest.fixture.value.path.value;
    EntryKeys(Payload(files), hash, fixture);
    var q :| q in Payload(files) && Text(q) == fixture;
    TextIsUnique(q);
  }
}
