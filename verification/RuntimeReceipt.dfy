/**
 The runtime package archive and its receipt. One walk over the archive extracts it, another walk
 writes a receipt of its files, and a third lists what is installed; the installation is accepted
 when the last two agree.
 */
module RuntimeReceipt {
  import opened Basics
  import opened FileTree
  import opened Listings
  import opened Ordering
  import opened PathText

  const MAX_FILES := 20_000
  const MAX_BYTES := 512 * 1024 * 1024

  datatype Kind = DirectoryMember | FileMember | OtherMember

  /** One archive member; `data` is what reading it yields, if it can be read. */
  datatype Member = Member(name: string, kind: Kind, size: int, data: Option<string>)

  datatype RuntimeFile = RuntimeFile(path: string, size: nat, sha: string)

  // ----- Member paths

  /** The path of a member below "package/", or None when it has no place there. */
  function Relative(name: string): (r: Option<Path>)
    ensures r.Some? ==> r.value != [] && GoodNames(r.value)
  {
    var parts := Proper(Split(name, '/'));
    if (name != [] && name[0] == '/') || parts == [] || parts[0] != "package" || |parts| == 1
      || ".." in parts[1..] then None
    else Some(parts[1..])
  }

  lemma {:induction false} ProperNames(p: Path)
    requires GoodNames(p)
    ensures Proper(p) == p
  {
    if p != [] {
      ProperNames(p[1..]);
    }
  }

  lemma {:induction false} ProperJoins(a: seq<string>, b: seq<string>)
    ensures Proper(a + b) == Proper(a) + Proper(b)
  {
    if a == [] {
      assert a + b == b;
    } else {
      var head := if a[0] == "" || a[0] == "." then [] else [a[0]];
      assert (a + b)[0] == a[0] && (a + b)[1..] == a[1..] + b;
      assert Proper(a + b) == head + Proper(a[1..] + b) && Proper(a) == head + Proper(a[1..]);
      hide Proper;
      ProperJoins(a[1..], b);
      assert head + (Proper(a[1..]) + Proper(b)) == head + Proper(a[1..]) + Proper(b);
    }
  }

  lemma ProperSkips(a: seq<string>, step: string, b: seq<string>)
    requires step == "" || step == "."
    ensures Proper(a + [step] + b) == Proper(a + b)
  {
    assert Proper([step]) == [];
    hide Proper;
    ProperJoins(a + [step], b);
    ProperJoins(a, [step]);
    ProperJoins(a, b);
  }

  lemma JoinedStart(parts: seq<string>)
    requires parts != [] && parts[0] != ""
    ensures Join(parts, '/') != [] && Join(parts, '/')[0] == parts[0][0]
  {
  }

  /** A member below "package" has the path that is written behind it; any other path has no place. */
  lemma RelativeReadsPath(p: Path)
    requires GoodPath(p)
    ensures Relative(Text(["package"] + p)) == Some(p)
    ensures p[0] != "package" || |p| == 1 ==> Relative(Text(p)) == None
  {
    TextIsUnique(["package"] + p);
    TextIsUnique(p);
    ProperNames(["package"] + p);
    ProperNames(p);
    JoinedStart(["package"] + p);
    JoinedStart(p);
    assert (["package"] + p)[1..] == p && ".." !in p;
  }

  /** Absolute names and names with a parent step have no place either. */
  lemma RelativeRefuses(parts: seq<string>)
    requires parts != [] && forall i :: 0 <= i < |parts| ==> '/' !in parts[i]
    requires (parts[0] == "" && |parts| > 1) || ".." in parts
    ensures Relative(Join(parts, '/')) == None
  {
    SplitJoin(parts, '/');
    if ".." in parts {
      ProperKeeps(parts, "..");
    }
  }

  lemma {:induction false} ProperKeeps(parts: seq<string>, part: string)
    requires part in parts && part != "" && part != "."
    ensures part in Proper(parts)
  {
    if parts[0] != part {
      assert parts == [parts[0]] + parts[1..];
      ProperKeeps(parts[1..], part);
    }
  }

  lemma RelativeGoesBy(parts: seq<string>)
    requires parts != [] && parts[0] != "" && forall i :: 0 <= i < |parts| ==> '/' !in parts[i]
    ensures var steps := Proper(parts);
      Relative(Join(parts, '/')) ==
        if steps == [] || steps[0] != "package" || |steps| == 1 || ".." in steps[1..] then None else Some(steps[1..])
  {
    SplitJoin(parts, '/');
    JoinedStart(parts);
    hide Split, Join, Proper;
  }

  /** Empty steps and steps that stay in place do not count. */
  lemma RelativeSkips(a: seq<string>, step: string, b: seq<string>)
    requires a != [] && a[0] != "" && (step == "" || step == ".")
    requires forall x :: x in a || x in b ==> '/' !in x
    ensures Relative(Join(a + [step] + b, '/')) == Relative(Join(a + b, '/'))
  {
    hide Proper, Split, Join, Relative;
    ProperSkips(a, step, b);
    RelativeGoesBy(a + [step] + b);
    RelativeGoesBy(a + b);
  }

  function StripSlashes(name: string): string {
    if name != [] && name[|name| - 1] == '/' then StripSlashes(name[..|name| - 1]) else name
  }

  /** The names that are "package" with any number of slashes behind it. */
  lemma {:induction false} RootNames(name: string)
    ensures StripSlashes(name) == "package" <==>
      "package" <= name && forall i :: 7 <= i < |name| ==> name[i] == '/'
  {
    if name != [] && name[|name| - 1] == '/' {
      RootNames(name[..|name| - 1]);
      assert "package"[6] == 'e';
    }
  }

  predicate PackageRoot(m: Member) {
    Relative(m.name).None? && m.kind.DirectoryMember? && StripSlashes(m.name) == "package"
  }

  predicate IsFile(m: Member) { Relative(m.name).Some? && m.kind.FileMember? }

  // ----- What both walks demand

  predicate Admissible(m: Member) {
    || PackageRoot(m)
    || (Relative(m.name).Some? && (m.kind.DirectoryMember? || (m.kind.FileMember? && m.size >= 0 && m.data.Some?)))
  }

  function FileCount(members: seq<Member>): nat {
    if members == [] then 0
    else FileCount(members[..|members| - 1]) + if IsFile(members[|members| - 1]) then 1 else 0
  }

  function SizeSum(members: seq<Member>): int {
    if members == [] then 0
    else SizeSum(members[..|members| - 1]) + if IsFile(members[|members| - 1]) then members[|members| - 1].size else 0
  }

  /** The collision key of a member: its path with the case folded away. */
  function KeyOf(m: Member, fold: string -> string): Option<string> {
    if Relative(m.name).Some? then Some(fold(Text(Relative(m.name).value))) else None
  }

  ghost predicate DistinctKeys(members: seq<Member>, fold: string -> string) {
    forall i, j :: 0 <= i < j < |members| && KeyOf(members[i], fold).Some? ==>
      KeyOf(members[i], fold) != KeyOf(members[j], fold)
  }

  /** Every member has a place, no two of them differ by case only, and the limits hold. */
  ghost predicate Walkable(members: seq<Member>, fold: string -> string) {
    && (forall i :: 0 <= i < |members| ==> Admissible(members[i]))
    && DistinctKeys(members, fold) && FileCount(members) <= MAX_FILES && SizeSum(members) <= MAX_BYTES
  }

  lemma {:induction false} LimitsOfPrefix(members: seq<Member>, k: nat)
    requires k <= |members| && forall i :: 0 <= i < |members| ==> Admissible(members[i])
    ensures FileCount(members[..k]) <= FileCount(members) && SizeSum(members[..k]) <= SizeSum(members)
  {
    if k == |members| {
      assert members[..k] == members;
    } else {
      var front := members[..|members| - 1];
      LimitsOfPrefix(front, k);
      assert front[..k] == members[..k];
    }
  }

  lemma WalkablePrefix(members: seq<Member>, fold: string -> string, k: nat)
    requires k <= |members| && Walkable(members, fold)
    ensures Walkable(members[..k], fold)
  {
    LimitsOfPrefix(members, k);
  }

  /** What one more member must satisfy. */
  lemma WalkableStep(members: seq<Member>, fold: string -> string, seen: set<string>, k: nat)
    requires k < |members| && Walkable(members[..k], fold) && KeysOf(members[..k], fold) == seen
    ensures var m := members[k];
      Walkable(members[..k + 1], fold) <==>
        && Admissible(m) && (KeyOf(m, fold).Some? ==> KeyOf(m, fold).value !in seen)
        && FileCount(members[..k]) + (if IsFile(m) then 1 else 0) <= MAX_FILES
        && SizeSum(members[..k]) + (if IsFile(m) then m.size else 0) <= MAX_BYTES
  {
    hide KeyOf, Admissible, IsFile;
    var before, now, m := members[..k], members[..k + 1], members[k];
    assert now[..k] == before && now == before + [m];
    KeysHas(before, fold, KeyOf(m, fold));
    DistinctStep(before, m, fold);
  }

  lemma DistinctStep(before: seq<Member>, m: Member, fold: string -> string)
    requires DistinctKeys(before, fold)
    ensures DistinctKeys(before + [m], fold) <==>
      forall i :: 0 <= i < |before| && KeyOf(before[i], fold).Some? ==> KeyOf(before[i], fold) != KeyOf(m, fold)
  {
    hide KeyOf;
    var now := before + [m];
    assert now[|before|] == m && forall i :: 0 <= i < |before| ==> now[i] == before[i];
  }

  function KeysOf(members: seq<Member>, fold: string -> string): set<string> {
    set i | 0 <= i < |members| && KeyOf(members[i], fold).Some? :: KeyOf(members[i], fold).value
  }

  lemma KeysHas(members: seq<Member>, fold: string -> string, key: Option<string>)
    ensures (key.Some? ==> key.value !in KeysOf(members, fold)) <==>
      forall i :: 0 <= i < |members| && KeyOf(members[i], fold).Some? ==> KeyOf(members[i], fold) != key
  {
    hide KeyOf;
    if key.Some? && key.value in KeysOf(members, fold) {
      var i :| 0 <= i < |members| && KeyOf(members[i], fold).Some? && KeyOf(members[i], fold).value == key.value;
    }
  }

  lemma KeysStep(members: seq<Member>, fold: string -> string, k: nat)
    requires k < |members|
    ensures KeysOf(members[..k + 1], fold) ==
      KeysOf(members[..k], fold) + if KeyOf(members[k], fold).Some? then {KeyOf(members[k], fold).value} else {}
  {
    hide KeyOf;
    var now, before := members[..k + 1], members[..k];
    assert forall i :: 0 <= i < k ==> now[i] == before[i];
    assert now[k] == members[k];
    forall x | x in KeysOf(before, fold) ensures x in KeysOf(now, fold) {
      var i :| 0 <= i < k && KeyOf(before[i], fold).Some? && KeyOf(before[i], fold).value == x;
      assert now[i] == before[i];
    }
  }

  // ----- The files of an archive

  function FilesOf(members: seq<Member>): (r: map<Path, string>)
    ensures forall p :: p in r ==> GoodPath(p)
  {
    if members == [] then map[]
    else
      var m, files := members[|members| - 1], FilesOf(members[..|members| - 1]);
      if IsFile(m) && m.data.Some? then files[Relative(m.name).value := m.data.value] else files
  }

  /** The bytes of a set of files. */
  ghost function Total(files: map<Path, string>): nat
    decreases |files|
  {
    if files == map[] then 0
    else
      var p :| p in files;
      Total(files - {p}) + |files[p]|
  }

  lemma {:induction false} TotalWithout(files: map<Path, string>, p: Path)
    requires p in files
    ensures Total(files) == Total(files - {p}) + |files[p]|
    decreases |files|
  {
    var q :| q in files && Total(files) == Total(files - {q}) + |files[q]|;
    if q != p {
      TotalWithout(files - {q}, p);
      TotalWithout(files - {p}, q);
      assert files - {q} - {p} == files - {p} - {q};
    }
  }

  lemma TotalAdd(files: map<Path, string>, p: Path, c: string)
    requires p !in files
    ensures Total(files[p := c]) == Total(files) + |c|
  {
    TotalWithout(files[p := c], p);
    assert files[p := c] - {p} == files;
  }

  /** Equal paths would have equal keys. */
  lemma {:induction false} FileIsNew(members: seq<Member>, fold: string -> string, m: Member)
    requires DistinctKeys(members + [m], fold) && Relative(m.name).Some?
    ensures Relative(m.name).value !in FilesOf(members)
  {
    if members != [] {
      var front := members[..|members| - 1];
      assert (members + [m])[|members|] == m && (members + [m])[|members| - 1] == members[|members| - 1];
      assert forall i :: 0 <= i < |front| ==> (front + [m])[i] == (members + [m])[i];
      assert DistinctKeys(front + [m], fold) by {
        assert (front + [m])[|front|] == m;
      }
      FileIsNew(front, fold, m);
    }
  }

  /** The counters of both walks are the number and the bytes of the files. */
  lemma {:induction false} CountersAreExact(members: seq<Member>, fold: string -> string)
    requires Walkable(members, fold) && forall i :: 0 <= i < |members| && IsFile(members[i]) ==> Honest(members[i])
    ensures |FilesOf(members)| == FileCount(members) && Total(FilesOf(members)) == SizeSum(members)
  {
    if members != [] {
      var front, m := members[..|members| - 1], members[|members| - 1];
      WalkablePrefix(members, fold, |front|);
      assert front + [m] == members;
      CountersAreExact(front, fold);
      if IsFile(m) {
        FileIsNew(front, fold, m);
        TotalAdd(FilesOf(front), Relative(m.name).value, m.data.value);
        assert FilesOf(members).Keys == FilesOf(front).Keys + {Relative(m.name).value};
      }
    }
  }

  /** The recorded size is the size of the data. */
  predicate Honest(m: Member) { m.data.Some? && m.size == |m.data.value| }

  // ----- Listings

  function Listing(entries: Entries): seq<RuntimeFile> {
    var keys := SortedStrings(entries.Keys);
    seq(|keys|, i requires 0 <= i < |keys| => Row(entries, keys, i))
  }

  function Row(entries: Entries, keys: seq<string>, i: nat): RuntimeFile
    requires i < |keys| && forall k :: k in keys ==> k in entries
  {
    assert keys[i] in keys;
    RuntimeFile(keys[i], entries[keys[i]].0, entries[keys[i]].1)
  }

  function AsEntries(files: seq<RuntimeFile>): Entries {
    if files == [] then map[]
    else AsEntries(files[..|files| - 1])[files[|files| - 1].path := (files[|files| - 1].size, files[|files| - 1].sha)]
  }

  /** The list sorted by path. */
  function SortedByPath(files: seq<RuntimeFile>): seq<RuntimeFile> { Listing(AsEntries(files)) }

  lemma ListingHas(entries: Entries, f: RuntimeFile)
    ensures f in Listing(entries) <==> f.path in entries && entries[f.path] == (f.size, f.sha)
  {
    hide Before;
    var keys := SortedStrings(entries.Keys);
    if f.path in entries && entries[f.path] == (f.size, f.sha) {
      assert f.path in keys;
      var i :| 0 <= i < |keys| && keys[i] == f.path;
      assert Listing(entries)[i] == f;
    }
    if f in Listing(entries) {
      var i :| 0 <= i < |keys| && Listing(entries)[i] == f;
      assert keys[i] in keys;
    }
  }

  predicate PathsAscend(files: seq<RuntimeFile>) {
    forall i, j :: 0 <= i < j < |files| ==> Before(files[i].path, files[j].path)
  }

  lemma ListingAscends(entries: Entries)
    ensures PathsAscend(Listing(entries)) && |Listing(entries)| == |entries|
  {
    hide Before;
    var keys := SortedStrings(entries.Keys);
    assert forall i :: 0 <= i < |keys| ==> Listing(entries)[i].path == keys[i];
  }

  ghost predicate PathsDiffer(files: seq<RuntimeFile>) {
    forall i, j :: 0 <= i < j < |files| ==> files[i].path != files[j].path
  }

  lemma {:induction false} AsEntriesHas(files: seq<RuntimeFile>, f: RuntimeFile)
    requires PathsDiffer(files)
    ensures f in files <==> f.path in AsEntries(files) && AsEntries(files)[f.path] == (f.size, f.sha)
    ensures f.path in AsEntries(files) <==> exists i :: 0 <= i < |files| && files[i].path == f.path
    ensures |AsEntries(files)| == |files|
  {
    if files != [] {
      var front, last := files[..|files| - 1], files[|files| - 1];
      AsEntriesHas(front, f);
      AsEntriesHas(front, last);
      assert files == front + [last];
      assert AsEntries(files).Keys == AsEntries(front).Keys + {last.path};
    }
  }

  /** Files with different paths sort to the same files, in ascending order of path. */
  lemma SortingIsFaithful(files: seq<RuntimeFile>)
    requires PathsDiffer(files)
    ensures forall f :: f in SortedByPath(files) <==> f in files
    ensures |SortedByPath(files)| == |files| && PathsAscend(SortedByPath(files))
  {
    ListingAscends(AsEntries(files));
    forall f ensures f in SortedByPath(files) <==> f in files {
      ListingHas(AsEntries(files), f);
      AsEntriesHas(files, f);
    }
    AsEntriesHas(files, RuntimeFile("", 0, ""));
  }

  // ----- Extraction

  /** The tree with the first `n` directories on the way to `p`. */
  function PartlyFilled(tree: Tree, p: Path, n: nat): Tree
    requires n <= |p| + 1
  {
    map q | q in tree.Keys + (set k | 0 <= k < n :: p[..k]) :: if q in tree then tree[q] else Dir
  }

  function Filled(tree: Tree, p: Path): Tree { PartlyFilled(tree, p, |p| + 1) }

  /** No file stands where a directory on the way to `p` is needed. */
  predicate Clear(tree: Tree, p: Path) {
    forall k :: 0 <= k <= |p| && p[..k] in tree ==> tree[p[..k]].Dir?
  }

  predicate CanPlace(tree: Tree, m: Member) {
    Relative(m.name).Some? ==>
      var p := Relative(m.name).value;
      if m.kind.DirectoryMember? then Clear(tree, p) else Clear(tree, Parent(p)) && p !in tree
  }

  function Placed(tree: Tree, m: Member): Tree {
    if Relative(m.name).None? then tree
    else
      var p := Relative(m.name).value;
      if m.kind.DirectoryMember? || m.data.None? then Filled(tree, p)
      else Filled(tree, Parent(p))[p := File(m.data.value)]
  }

  function TreeOf(members: seq<Member>): Tree {
    if members == [] then map[[] := Dir] else Placed(TreeOf(members[..|members| - 1]), members[|members| - 1])
  }

  /** No file member lies at or above the path of another member. */
  ghost predicate NoClash(members: seq<Member>) {
    forall i, j :: 0 <= i < |members| && 0 <= j < |members| && i != j ==>
      IsFile(members[i]) && Relative(members[j].name).Some? ==>
      !(Relative(members[i].name).value <= Relative(members[j].name).value)
  }

  function FilesIn(tree: Tree): map<Path, string> {
    map p | p in tree && tree[p].File? :: tree[p].content
  }

  ghost predicate SomethingBelow(members: seq<Member>, p: Path) {
    exists j :: 0 <= j < |members| && Relative(members[j].name).Some? && p <= Relative(members[j].name).value
  }

  lemma SomethingBelowStep(front: seq<Member>, m: Member, p: Path)
    ensures SomethingBelow(front + [m], p) <==>
      SomethingBelow(front, p) || (Relative(m.name).Some? && p <= Relative(m.name).value)
  {
    hide Relative;
    var members := front + [m];
    assert members[|front|] == m;
    if j :| 0 <= j < |front| && Relative(front[j].name).Some? && p <= Relative(front[j].name).value {
      assert members[j] == front[j];
    }
  }

  /** The extracted tree holds the member paths and the directories above them, and nothing else. */
  lemma {:induction false} TreeHas(members: seq<Member>, q: Path)
    ensures q in TreeOf(members) <==> q == [] || SomethingBelow(members, q)
  {
    hide Relative, Placed, SomethingBelow;
    if members == [] {
      NothingAtAll(q);
    } else {
      var front, m := members[..|members| - 1], members[|members| - 1];
      assert front + [m] == members;
      TreeHas(front, q);
      PlacedHas(TreeOf(front), m, q);
      SomethingBelowStep(front, m, q);
    }
  }

  lemma NothingAtAll(q: Path)
    ensures !SomethingBelow([], q)
  {
  }

  lemma PlacedHas(tree: Tree, m: Member, q: Path)
    ensures q in Placed(tree, m) <==> q in tree || (Relative(m.name).Some? && q <= Relative(m.name).value)
  {
    if Relative(m.name).Some? {
      var p := Relative(m.name).value;
      if q <= p {
        assert q == p[..|q|];
        if q != p {
          assert q == Parent(p)[..|q|];
        }
      }
    }
  }

  lemma FileHasData(m: Member)
    requires Admissible(m)
    ensures IsFile(m) ==> m.data.Some? && m.size >= 0
  {
  }

  lemma {:induction false} FilesOfHas(members: seq<Member>, q: Path)
    requires forall i :: 0 <= i < |members| ==> Admissible(members[i])
    ensures q in FilesOf(members) <==>
      exists i :: 0 <= i < |members| && IsFile(members[i]) && q == Relative(members[i].name).value
  {
    hide Relative, Admissible;
    if members != [] {
      var front, m := members[..|members| - 1], members[|members| - 1];
      FilesOfHas(front, q);
      FileHasData(m);
      if q in FilesOf(front) {
        var i :| 0 <= i < |front| && IsFile(front[i]) && q == Relative(front[i].name).value;
        assert members[i] == front[i];
      }
      if i :| 0 <= i < |members| && IsFile(members[i]) && q == Relative(members[i].name).value {
        if i < |front| {
          assert front[i] == members[i];
        }
      }
    }
  }

  ghost predicate FileAbove(members: seq<Member>, p: Path) {
    exists i :: 0 <= i < |members| && IsFile(members[i]) && Relative(members[i].name).value <= p
  }

  lemma ClearExactly(members: seq<Member>, p: Path)
    requires forall i :: 0 <= i < |members| ==> Admissible(members[i])
    requires FilesIn(TreeOf(members)) == FilesOf(members)
    ensures Clear(TreeOf(members), p) <==> !FileAbove(members, p)
  {
    hide Admissible, Relative, TreeOf, FilesOf;
    var tree := TreeOf(members);
    if !Clear(tree, p) {
      var k :| 0 <= k <= |p| && p[..k] in tree && tree[p[..k]].File?;
      assert p[..k] in FilesIn(tree);
      FilesOfHas(members, p[..k]);
    }
    if FileAbove(members, p) {
      var i :| 0 <= i < |members| && IsFile(members[i]) && Relative(members[i].name).value <= p;
      var q := Relative(members[i].name).value;
      FilesOfHas(members, q);
      assert q in FilesIn(tree) && q == p[..|q|];
    }
  }

  lemma OneMoreClash(before: seq<Member>, m: Member)
    requires NoClash(before)
    ensures NoClash(before + [m]) <==>
      (Relative(m.name).Some? ==>
         var p := Relative(m.name).value;
         !FileAbove(before, p) && (IsFile(m) ==> !SomethingBelow(before, p)))
  {
    hide Relative;
    var now, n := before + [m], |before|;
    assert now[n] == m && forall i :: 0 <= i < n ==> now[i] == before[i];
    if Relative(m.name).Some? {
      var p := Relative(m.name).value;
      if FileAbove(before, p) {
        var i :| 0 <= i < n && IsFile(before[i]) && Relative(before[i].name).value <= p;
        assert IsFile(now[i]) && Relative(now[n].name).Some?;
      }
      if IsFile(m) && SomethingBelow(before, p) {
        var j :| 0 <= j < n && Relative(before[j].name).Some? && p <= Relative(before[j].name).value;
        assert IsFile(now[n]) && Relative(now[j].name).Some?;
      }
    }
  }

  /** The next member can be placed exactly when it clashes with none before it. */
  lemma ClashStep(before: seq<Member>, m: Member)
    requires NoClash(before) && Admissible(m) && forall i :: 0 <= i < |before| ==> Admissible(before[i])
    requires FilesIn(TreeOf(before)) == FilesOf(before)
    ensures NoClash(before + [m]) <==> CanPlace(TreeOf(before), m)
  {
    hide Relative, TreeOf, FilesOf, Clear, NoClash, FileAbove;
    OneMoreClash(before, m);
    if Relative(m.name).Some? {
      var p := Relative(m.name).value;
      ClearExactly(before, p);
      ClearExactly(before, Parent(p));
      TreeHas(before, p);
      AboveOrAt(before, p);
    }
  }

  lemma AboveOrAt(members: seq<Member>, p: Path)
    requires p != []
    ensures FileAbove(members, Parent(p)) ==> FileAbove(members, p)
    ensures FileAbove(members, p) ==> FileAbove(members, Parent(p)) || SomethingBelow(members, p)
  {
    hide Relative;
    if FileAbove(members, p) {
      var i :| 0 <= i < |members| && IsFile(members[i]) && Relative(members[i].name).value <= p;
      var q := Relative(members[i].name).value;
      if q != p {
        assert q <= Parent(p);
      }
    }
    if FileAbove(members, Parent(p)) {
      var i :| 0 <= i < |members| && IsFile(members[i]) && Relative(members[i].name).value <= Parent(p);
      assert Relative(members[i].name).value <= p;
    }
  }

  /** Placing a member adds its file, if it is one, and directories. */
  lemma PlacedFiles(tree: Tree, m: Member)
    requires Admissible(m) && CanPlace(tree, m)
    ensures FilesIn(Placed(tree, m)) ==
      if IsFile(m) then FilesIn(tree)[Relative(m.name).value := m.data.value] else FilesIn(tree)
  {
  }

  /** The extracted tree holds exactly the files of an archive without clashes. */
  lemma {:induction false} ExtractedFiles(members: seq<Member>)
    requires NoClash(members) && forall i :: 0 <= i < |members| ==> Admissible(members[i])
    ensures FilesIn(TreeOf(members)) == FilesOf(members)
  {
    if members != [] {
      var front, m := members[..|members| - 1], members[|members| - 1];
      NoClashPrefix(members, |front|);
      ExtractedFiles(front);
      assert front + [m] == members;
      ClashStep(front, m);
      PlacedFiles(TreeOf(front), m);
    }
  }

  lemma NoClashPrefix(members: seq<Member>, k: nat)
    requires k <= |members| && NoClash(members)
    ensures NoClash(members[..k])
  {
    assert forall i :: 0 <= i < k ==> members[..k][i] == members[i];
  }

  // ----- The three walks

  lemma PrefixPasses(members: seq<Member>, fold: string -> string, k: nat)
    requires k <= |members|
    ensures Walkable(members, fold) ==> Walkable(members[..k], fold)
    ensures NoClash(members) ==> NoClash(members[..k])
  {
    if Walkable(members, fold) {
      WalkablePrefix(members, fold, k);
    }
    if NoClash(members) {
      NoClashPrefix(members, k);
    }
  }

  lemma CountersStep(members: seq<Member>, k: nat)
    requires k < |members|
    ensures members[..k + 1] == members[..k] + [members[k]]
    ensures FileCount(members[..k + 1]) == FileCount(members[..k]) + if IsFile(members[k]) then 1 else 0
    ensures SizeSum(members[..k + 1]) == SizeSum(members[..k]) + if IsFile(members[k]) then members[k].size else 0
    ensures TreeOf(members[..k + 1]) == Placed(TreeOf(members[..k]), members[k])
  {
    assert members[..k + 1][..k] == members[..k];
  }

  class RuntimeDir {
    var archive: Option<string>
    var receipt: Option<string>
    var package: Tree

    constructor ()
      ensures archive == None && receipt == None && package == map[]
    {
      archive, receipt, package := None, None, map[];
    }

    /** Makes the missing directories down to `p`, unless a file is in the way. */
    method MakeDirs(p: Path) returns (ok: bool)
      modifies this`package
      ensures ok <==> Clear(old(package), p)
      ensures ok ==> package == Filled(old(package), p)
    {
      var k := 0;
      while k <= |p|
        invariant 0 <= k <= |p| + 1 && package == PartlyFilled(old(package), p, k)
        invariant forall j :: 0 <= j < k && p[..j] in old(package) ==> old(package)[p[..j]].Dir?
      {
        FilledStep(old(package), p, k);
        if p[..k] !in package {
          package := package[p[..k] := Dir];
        } else if package[p[..k]].File? {
          return false;
        }
        k := k + 1;
      }
      ok := true;
    }

    method CreateNew(p: Path, content: string) returns (ok: bool)
      modifies this`package
      ensures ok <==> p !in old(package)
      ensures ok ==> package == old(package)[p := File(content)]
    {
      ok := p !in package;
      if ok {
        package := package[p := File(content)];
      }
    }

    method PlaceMember(m: Member) returns (ok: bool)
      requires Admissible(m) && Relative(m.name).Some?
      modifies this`package
      ensures ok <==> CanPlace(old(package), m)
      ensures ok ==> package == Placed(old(package), m)
    {
      var p := Relative(m.name).value;
      if m.kind.DirectoryMember? {
        ok := MakeDirs(p);
      } else {
        ok := MakeDirs(Parent(p));
        if ok {
          NotOnItsWay(old(package), p);
          ok := CreateNew(p, m.data.value);
        }
      }
    }

    /** Unpacks the archive into a new package directory. */
    method Extract(members: seq<Member>, fold: string -> string) returns (ok: bool)
      modifies this`package
      ensures ok <==> old(package) == map[] && Walkable(members, fold) && NoClash(members)
      ensures ok ==> package == TreeOf(members)
    {
      hide Relative, Placed, CanPlace, TreeOf, FilesOf, NoClash, DistinctKeys, Walkable, KeysOf, FileCount;
      hide SizeSum, Walked, Text;
      if package != map[] {
        return false;
      }
      package := map[[] := Dir];
      var seen: set<string>, total, count, i := {}, 0, 0, 0;
      NothingWalked(members, fold);
      while i < |members|
        invariant 0 <= i <= |members| && Walked(members[..i], fold, seen, count, total) && NoClash(members[..i])
        invariant package == TreeOf(members[..i])
      {
        var m := members[i];
        WalkedIsWalkable(members[..i], fold, seen, count, total);
        WalkedStep(members, fold, i, seen, count, total);
        PlacedStep(members, fold, i);
        if Relative(m.name).None? {
          if !PackageRoot(m) {
            return false;
          }
          RootIsThere(package, m);
        } else {
          var key := fold(Text(Relative(m.name).value));
          if key in seen {
            return false;
          }
          seen := seen + {key};
          if !m.kind.DirectoryMember? {
            if !m.kind.FileMember? || m.size < 0 {
              return false;
            }
            count, total := count + 1, total + m.size;
            if count > MAX_FILES || total > MAX_BYTES || m.data.None? {
              return false;
            }
          }
          ok := PlaceMember(m);
          if !ok {
            return;
          }
        }
        i := i + 1;
      }
      assert members[..i] == members;
      WalkedIsWalkable(members, fold, seen, count, total);
      ok := true;
    }

    /** Lists what is installed, in whatever order the directory walk meets the files. */
    method Installed(hash: string -> string) returns (r: Option<seq<RuntimeFile>>)
      requires GoodTree(package)
      ensures r.Some? <==> Listable(package)
      ensures r.Some? ==> r.value == Listing(EntriesOf(FilesIn(package), hash))
    {
      hide EntriesOf, AsEntries, Text;
      if [] !in package || package[[]].File? {
        return None;
      }
      ghost var whole := FilesIn(package);
      var left, files: seq<RuntimeFile>, total := FilesIn(package).Keys, [], 0;
      NothingInstalled(whole, hash);
      while left != {}
        invariant ListedBut(whole, left, files, total, hash) && |files| <= MAX_FILES && total <= MAX_BYTES
        decreases |left|
      {
        hide ListedBut, FilesIn, SortedByPath, Listing;
        var p :| p in left;
        OneMoreInstalled(whole, left, files, total, hash, p);
        total := total + |package[p].content|;
        if |files| >= MAX_FILES || total > MAX_BYTES {
          return None;
        }
        files := files + [RuntimeFile(Text(p), |package[p].content|, hash(package[p].content))];
        left := left - {p};
      }
      AllInstalled(whole, files, total, hash);
      r := Some(SortedByPath(files));
    }

    /** The installed files and the receipt must be those of the archive that is kept beside them. */
    method Verify(w: World, req: Requirement) returns (ok: bool)
      requires GoodTree(package)
      ensures ok <==> (archive.Some? && receipt.Some? && Acceptable(w, archive.value, req)
                       && receipt.value == w.render(Expected(w, archive.value))
                       && ListedAsExpected(w, archive.value, package))
    {
      if archive.None? || receipt.None? {
        return false;
      }
      var expected := MakeReceipt(w, archive.value, req);
      if expected.None? || receipt.value != w.render(expected.value) {
        return false;
      }
      var installed := Installed(w.hash);
      ok := installed == Some(expected.value.files);
    }

    /** Keeps the archive, writes its receipt and verifies the installation at once. */
    method Bind(w: World, bytes: string, req: Requirement) returns (ok: bool)
      requires GoodTree(package)
      modifies this`archive, this`receipt
      ensures ok <==> Acceptable(w, bytes, req) && ListedAsExpected(w, bytes, package)
      ensures archive == Some(bytes)
      ensures receipt == if Acceptable(w, bytes, req) then Some(w.render(Expected(w, bytes))) else None
    {
      archive, receipt := Some(bytes), None;
      var made := MakeReceipt(w, bytes, req);
      if made.None? {
        return false;
      }
      receipt := Some(w.render(made.value));
      ok := Verify(w, req);
    }

    /** Extraction and binding together: once the archive unpacks, a receipt that can be written is
        never refused by the verification that follows. */
    method ExtractAndBind(w: World, bytes: string, req: Requirement) returns (extracted: bool, bound: bool)
      requires package == map[] && w.decode(bytes).Some?
      modifies this
      ensures extracted <==> Walkable(w.decode(bytes).value, w.fold) && NoClash(w.decode(bytes).value)
      ensures bound <==> extracted && Acceptable(w, bytes, req)
      ensures extracted ==> FilesIn(package) == FilesOf(w.decode(bytes).value)
    {
      hide EntriesOf, Walkable, NoClash;
      var members := w.decode(bytes).value;
      extracted := Extract(members, w.fold);
      bound := false;
      if extracted {
        ExtractedTree(members, w.fold);
        WalksAgree(members, w.fold);
        bound := Bind(w, bytes, req);
      }
    }
  }

  /** What the counters of a walk hold after the given members. */
  ghost predicate Walked(members: seq<Member>, fold: string -> string, seen: set<string>, count: nat, total: int) {
    Walkable(members, fold) && seen == KeysOf(members, fold) && count == FileCount(members) && total == SizeSum(members)
  }

  /** The checks of both walks for one more member. */
  ghost predicate Passes(m: Member, fold: string -> string, seen: set<string>, count: nat, total: int) {
    && Admissible(m) && (KeyOf(m, fold).Some? ==> KeyOf(m, fold).value !in seen)
    && (IsFile(m) ==> count + 1 <= MAX_FILES && total + m.size <= MAX_BYTES)
  }

  /** A walk gets past the next member exactly when the checks pass; an archive whose next member
      does not pass is not walkable. */
  lemma WalkedStep(members: seq<Member>, fold: string -> string, i: nat, seen: set<string>, count: nat, total: int)
    requires i < |members| && Walked(members[..i], fold, seen, count, total)
    ensures var m := members[i];
      && (Walkable(members, fold) ==> Passes(m, fold, seen, count, total))
      && (Passes(m, fold, seen, count, total) ==>
            Walked(members[..i + 1], fold, if KeyOf(m, fold).Some? then seen + {KeyOf(m, fold).value} else seen,
                   if IsFile(m) then count + 1 else count, if IsFile(m) then total + m.size else total))
  {
    hide Admissible, KeyOf, IsFile, DistinctKeys, KeysOf;
    WalkableStep(members, fold, seen, i);
    KeysStep(members, fold, i);
    CountersStep(members, i);
    PrefixPasses(members, fold, i + 1);
  }

  lemma WalkedIsWalkable(members: seq<Member>, fold: string -> string, seen: set<string>, count: nat, total: int)
    requires Walked(members, fold, seen, count, total)
    ensures Walkable(members, fold)
  {
  }

  lemma PlacedStep(members: seq<Member>, fold: string -> string, i: nat)
    requires i < |members| && NoClash(members[..i]) && Walkable(members[..i], fold)
    ensures Admissible(members[i]) ==>
      && (NoClash(members) ==> CanPlace(TreeOf(members[..i]), members[i]))
      && (CanPlace(TreeOf(members[..i]), members[i]) ==>
            NoClash(members[..i + 1]) && TreeOf(members[..i + 1]) == Placed(TreeOf(members[..i]), members[i]))
  {
    hide Admissible, Relative, Placed, CanPlace, TreeOf, FilesOf, NoClash, DistinctKeys, FilesIn;
    if Admissible(members[i]) {
      CountersStep(members, i);
      PrefixPasses(members, fold, i + 1);
      ExtractedFiles(members[..i]);
      ClashStep(members[..i], members[i]);
    }
  }

  lemma RootIsThere(tree: Tree, m: Member)
    requires Relative(m.name).None?
    ensures CanPlace(tree, m) && Placed(tree, m) == tree
  {
  }

  lemma NothingWalked(members: seq<Member>, fold: string -> string)
    ensures Walked(members[..0], fold, {}, 0, 0) && NoClash(members[..0])
    ensures TreeOf(members[..0]) == map[[] := Dir]
  {
  }

  lemma FilledStep(tree: Tree, p: Path, k: nat)
    requires k <= |p|
    ensures var before := PartlyFilled(tree, p, k);
      && (p[..k] in before <==> p[..k] in tree) && (p[..k] in tree ==> before[p[..k]] == tree[p[..k]])
      && PartlyFilled(tree, p, k + 1) == if p[..k] in tree then before else before[p[..k] := Dir]
  {
    forall j | 0 <= j < k ensures p[..j] != p[..k] {
      assert |p[..j]| == j;
    }
  }

  lemma NotOnItsWay(tree: Tree, p: Path)
    requires p != []
    ensures p in Filled(tree, Parent(p)) <==> p in tree
  {
    forall j | 0 <= j < |p| ensures Parent(p)[..j] != p {
      assert |Parent(p)[..j]| == j;
    }
  }

  // ----- The receipt

  /** The receipt's own reading of member paths: as for the extraction, but no backslash anywhere. */
  function RelativeStrict(name: string): Option<Path> {
    if '\\' in name then None else Relative(name)
  }

  /** What the receipt demands of a member beyond what the extraction does. */
  predicate Receivable(m: Member) {
    && (Relative(m.name).Some? ==> '\\' !in m.name)
    && (IsFile(m) && m.data.Some? ==> m.size == |m.data.value|)
  }

  lemma {:induction false} NoBackslashAtRoot(name: string)
    requires StripSlashes(name) == "package"
    ensures '\\' !in name
  {
    if name != [] && name[|name| - 1] == '/' {
      NoBackslashAtRoot(name[..|name| - 1]);
      assert name == name[..|name| - 1] + "/";
    }
  }

  /** The receipt's list of files, sorted by path. */
  method ReceiptFiles(members: seq<Member>, fold: string -> string, hash: string -> string)
    returns (r: Option<seq<RuntimeFile>>)
    ensures r.Some? <==> Walkable(members, fold) && forall i :: 0 <= i < |members| ==> Receivable(members[i])
    ensures r.Some? ==> r.value == Listing(EntriesOf(FilesOf(members), hash))
  {
    hide Relative, Text, DistinctKeys, Walkable, KeysOf, FileCount, SizeSum, Walked, EntriesOf, AsEntries, FilesOf;
    var seen: set<string>, files: seq<RuntimeFile>, total, i := {}, [], 0, 0;
    NothingWalked(members, fold);
    NothingListed(members, hash);
    while i < |members|
      invariant 0 <= i <= |members| && Walked(members[..i], fold, seen, |files|, total)
      invariant forall j :: 0 <= j < i ==> Receivable(members[j])
      invariant AsEntries(files) == EntriesOf(FilesOf(members[..i]), hash)
    {
      var m := members[i];
      WalkedStep(members, fold, i, seen, |files|, total);
      ListedStep(members, i, hash, files);
      var relative := RelativeStrict(m.name);
      if relative.None? {
        if m.kind.DirectoryMember? && StripSlashes(m.name) == "package" {
          NoBackslashAtRoot(m.name);
        } else {
          return None;
        }
      } else {
        var key := fold(Text(relative.value));
        if key in seen {
          return None;
        }
        seen := seen + {key};
        if !m.kind.DirectoryMember? {
          if !m.kind.FileMember? || m.size < 0 {
            return None;
          }
          total := total + m.size;
          if |files| >= MAX_FILES || total > MAX_BYTES || m.data.None? || |m.data.value| != m.size {
            return None;
          }
          files := files + [RuntimeFile(Text(relative.value), m.size, hash(m.data.value))];
        }
      }
      i := i + 1;
    }
    assert members[..i] == members;
    WalkedIsWalkable(members, fold, seen, |files|, total);
    r := Some(SortedByPath(files));
  }

  lemma NothingListed(members: seq<Member>, hash: string -> string)
    ensures AsEntries([]) == EntriesOf(FilesOf(members[..0]), hash)
  {
  }

  lemma ListedStep(members: seq<Member>, i: nat, hash: string -> string, files: seq<RuntimeFile>)
    requires i < |members| && AsEntries(files) == EntriesOf(FilesOf(members[..i]), hash)
    ensures var m, after := members[i], EntriesOf(FilesOf(members[..i + 1]), hash);
      if IsFile(m) && m.data.Some? then
        AsEntries(files + [RuntimeFile(Text(Relative(m.name).value), |m.data.value|, hash(m.data.value))]) == after
      else AsEntries(files) == after
  {
    hide Relative, Text, EntriesOf;
    var m := members[i];
    assert members[..i + 1][..i] == members[..i];
    if IsFile(m) && m.data.Some? {
      var f := RuntimeFile(Text(Relative(m.name).value), |m.data.value|, hash(m.data.value));
      assert (files + [f])[..|files|] == files;
      EntriesAdd(FilesOf(members[..i]), hash, Relative(m.name).value, m.data.value);
    }
  }

  // ----- Agreement

  ghost predicate GoodTree(tree: Tree) {
    forall p :: p in tree ==> GoodNames(p)
  }

  /** A directory whose files keep the limits. */
  ghost predicate Listable(tree: Tree) {
    IsDir(tree, []) && |FilesIn(tree)| <= MAX_FILES && Total(FilesIn(tree)) <= MAX_BYTES
  }

  /** The files but `left` have been listed and counted. */
  ghost predicate ListedBut(whole: map<Path, string>, left: set<Path>, files: seq<RuntimeFile>, total: int,
                            hash: string -> string) {
    && left <= whole.Keys && (forall p :: p in whole ==> GoodPath(p))
    && |files| == |whole - left| && total == Total(whole - left) && AsEntries(files) == EntriesOf(whole - left, hash)
  }

  lemma NothingInstalled(whole: map<Path, string>, hash: string -> string)
    requires forall p :: p in whole ==> GoodPath(p)
    ensures ListedBut(whole, whole.Keys, [], 0, hash)
  {
    assert whole - whole.Keys == map[];
  }

  lemma AllInstalled(whole: map<Path, string>, files: seq<RuntimeFile>, total: int, hash: string -> string)
    requires ListedBut(whole, {}, files, total, hash)
    ensures |files| == |whole| && total == Total(whole) && AsEntries(files) == EntriesOf(whole, hash)
  {
    assert whole - {} == whole;
  }

  lemma OneMoreInstalled(whole: map<Path, string>, left: set<Path>, files: seq<RuntimeFile>, total: int,
                         hash: string -> string, p: Path)
    requires ListedBut(whole, left, files, total, hash) && p in left
    ensures p in whole && |files| + 1 <= |whole| && total + |whole[p]| <= Total(whole)
    ensures ListedBut(whole, left - {p}, files + [RuntimeFile(Text(p), |whole[p]|, hash(whole[p]))], total + |whole[p]|,
      hash)
  {
    hide EntriesOf, Text, AsEntries, Total;
    var done, f := whole - left, RuntimeFile(Text(p), |whole[p]|, hash(whole[p]));
    var more := whole - (left - {p});
    assert more == done[p := whole[p]];
    assert more.Keys == done.Keys + {p};
    TotalAdd(done, p, whole[p]);
    EntriesAdd(done, hash, p, whole[p]);
    AsEntriesAppend(files, f);
    TotalOfPart(whole, left - {p});
  }

  lemma AsEntriesAppend(files: seq<RuntimeFile>, f: RuntimeFile)
    ensures AsEntries(files + [f]) == AsEntries(files)[f.path := (f.size, f.sha)]
  {
    assert (files + [f])[..|files|] == files;
  }

  lemma {:induction false} TotalOfPart(files: map<Path, string>, without: set<Path>)
    requires without <= files.Keys
    ensures Total(files - without) <= Total(files) && |files - without| <= |files|
    decreases |without|
  {
    if without == {} {
      assert files - without == files;
    } else {
      var p := SomeElement(without);
      var part := files - (without - {p});
      TotalOfPart(files, without - {p});
      TotalWithout(part, p);
      assert part - {p} == files - without;
      assert (part - {p}).Keys == part.Keys - {p};
    }
  }

  datatype Requirement = Requirement(size: nat, sha: string)

  datatype Receipt = Receipt(sourceSize: nat, sourceSha: string, treeSha: string, files: seq<RuntimeFile>)

  /** The surroundings: the archive format, case folding, the digest, and the two text forms. */
  datatype World = World(decode: string -> Option<seq<Member>>, fold: string -> string, hash: string -> string,
                         treeText: seq<RuntimeFile> -> string, render: Receipt -> string)

  /** The archive is the required one and its receipt walk accepts it. */
  ghost predicate Acceptable(w: World, bytes: string, req: Requirement) {
    && |bytes| == req.size && w.hash(bytes) == req.sha && w.decode(bytes).Some?
    && Walkable(w.decode(bytes).value, w.fold) && AllReceivable(w.decode(bytes).value)
  }

  ghost predicate AllReceivable(members: seq<Member>) {
    forall i :: 0 <= i < |members| ==> Receivable(members[i])
  }

  ghost function Expected(w: World, bytes: string): Receipt
    requires w.decode(bytes).Some?
  {
    var files := Listing(EntriesOf(FilesOf(w.decode(bytes).value), w.hash));
    Receipt(|bytes|, w.hash(bytes), w.hash(w.treeText(files)), files)
  }

  /** The installed files, listed, are those the receipt names. */
  ghost predicate ListedAsExpected(w: World, bytes: string, package: Tree)
    requires w.decode(bytes).Some?
  {
    Listable(package) && Listing(EntriesOf(FilesIn(package), w.hash)) == Expected(w, bytes).files
  }

  method MakeReceipt(w: World, bytes: string, req: Requirement) returns (r: Option<Receipt>)
    ensures r.Some? <==> Acceptable(w, bytes, req)
    ensures r.Some? ==> r.value == Expected(w, bytes)
  {
    hide Walkable, Receivable, EntriesOf, Listing, FilesOf;
    if |bytes| != req.size || w.hash(bytes) != req.sha {
      return None;
    }
    var members := w.decode(bytes);
    if members.None? {
      return None;
    }
    var files := ReceiptFiles(members.value, w.fold, w.hash);
    r := if files.None? then None
         else Some(Receipt(|bytes|, w.hash(bytes), w.hash(w.treeText(files.value)), files.value));
  }

  lemma {:induction false} ExtractedTree(members: seq<Member>, fold: string -> string)
    requires Walkable(members, fold) && NoClash(members)
    ensures GoodTree(TreeOf(members)) && IsDir(TreeOf(members), []) && FilesIn(TreeOf(members)) == FilesOf(members)
  {
    hide Relative, TreeOf, FilesOf, SomethingBelow;
    ExtractedFiles(members);
    TreeHas(members, []);
    assert [] !in FilesOf(members);
    forall p | p in TreeOf(members) ensures GoodNames(p) {
      TreeHas(members, p);
      BelowIsGood(members, p);
    }
  }

  lemma BelowIsGood(members: seq<Member>, p: Path)
    ensures SomethingBelow(members, p) ==> GoodNames(p)
  {
    hide Relative;
    if j :| 0 <= j < |members| && Relative(members[j].name).Some? && p <= Relative(members[j].name).value {
      assert forall i :: 0 <= i < |p| ==> p[i] == Relative(members[j].name).value[i];
    }
  }

  /** Whatever both walks accept is installed exactly as its receipt lists it. */
  lemma WalksAgree(members: seq<Member>, fold: string -> string)
    requires Walkable(members, fold) && NoClash(members)
    ensures AllReceivable(members) ==> Listable(TreeOf(members))
  {
    hide Relative, TreeOf, FilesOf, NoClash;
    ExtractedTree(members, fold);
    if AllReceivable(members) {
      forall i | 0 <= i < |members| && IsFile(members[i]) ensures Honest(members[i]) {
        FileHasData(members[i]);
      }
      CountersAreExact(members, fold);
    }
  }

  lemma ListingIsInjective(a: Entries, b: Entries)
    requires Listing(a) == Listing(b)
    ensures a == b
  {
    hide Listing;
    forall k ensures k in a <==> k in b {
      EntryInListing(a, k);
      EntryInListing(b, k);
    }
    forall k | k in a ensures a[k] == b[k] {
      ListingHas(a, RuntimeFile(k, a[k].0, a[k].1));
      ListingHas(b, RuntimeFile(k, a[k].0, a[k].1));
    }
  }

  lemma EntryInListing(a: Entries, k: string)
    ensures k in a <==> exists f :: f in Listing(a) && f.path == k
  {
    hide Listing;
    if k in a {
      ListingHas(a, RuntimeFile(k, a[k].0, a[k].1));
    }
    if f :| f in Listing(a) && f.path == k {
      ListingHas(a, f);
    }
  }

  /** Without digest collisions, equal listings mean equal files: nothing added, removed or changed. */
  lemma ListingsDetermineFiles(f: map<Path, string>, g: map<Path, string>, hash: string -> string)
    requires NoCollision(f, g, hash) && (forall p :: p in f ==> GoodPath(p)) && (forall p :: p in g ==> GoodPath(p))
    requires Listing(EntriesOf(f, hash)) == Listing(EntriesOf(g, hash))
    ensures f == g
  {
    hide Listing, EntriesOf;
    ListingIsInjective(EntriesOf(f, hash), EntriesOf(g, hash));
    EntriesDetermineFiles(f, g, hash);
  }

  /** An installation that keeps an acceptable archive and its receipt verifies exactly when its
      files are those of the archive. */
  lemma VerifiedMeansUnchanged(w: World, bytes: string, req: Requirement, package: Tree)
    requires Acceptable(w, bytes, req) && GoodTree(package) && IsDir(package, [])
    requires NoCollision(FilesIn(package), FilesOf(w.decode(bytes).value), w.hash)
    ensures ListedAsExpected(w, bytes, package) <==> FilesIn(package) == FilesOf(w.decode(bytes).value)
  {
    hide Listing, EntriesOf, Relative, FilesOf;
    var members := w.decode(bytes).value;
    forall i | 0 <= i < |members| && IsFile(members[i]) ensures Honest(members[i]) {
      FileHasData(members[i]);
    }
    CountersAreExact(members, w.fold);
    if Listing(EntriesOf(FilesIn(package), w.hash)) == Expected(w, bytes).files {
      ListingsDetermineFiles(FilesIn(package), FilesOf(members), w.hash);
    }
  }
}
