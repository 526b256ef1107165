/**
 The directory bookkeeping around an activation: parents created for staging and for the
 targets, the sweeps that take them away again, and the whole install
 (`install_browser_bridge_bundle` with its try/finally shape).
 */
module Install {
  import opened Basics
  import opened FileTree
  import opened Activation

  // ----- Creating directories and taking them away

  function WithDirs(fs: Tree, created: seq<Path>): Tree {
    if created == [] then fs else WithDirs(fs, created[..|created| - 1])[created[|created| - 1] := Dir]
  }

  /** `created` lists new directories in the order of their creation. */
  ghost predicate Grows(fs: Tree, created: seq<Path>) {
    && Distinct(created)
    && forall j :: 0 <= j < |created| ==>
         created[j] != [] && created[j] !in fs && IsDir(WithDirs(fs, created[..j]), Parent(created[j]))
  }

  lemma {:induction false} WithDirsHas(fs: Tree, created: seq<Path>, p: Path)
    ensures p in WithDirs(fs, created) <==> p in fs || p in created
    ensures p in created ==> WithDirs(fs, created)[p] == Dir
    ensures p in fs && p !in created ==> WithDirs(fs, created)[p] == fs[p]
  {
    if created != [] {
      var front := created[..|created| - 1];
      WithDirsHas(fs, front, p);
      assert created == front + [created[|created| - 1]];
    }
  }

  lemma GrowsNothing(fs: Tree)
    ensures Grows(fs, []) && WithDirs(fs, []) == fs
  {
  }

  lemma GrowsPrefix(fs: Tree, created: seq<Path>, k: nat)
    requires Grows(fs, created) && k <= |created|
    ensures Grows(fs, created[..k])
  {
    forall j | 0 <= j < k ensures IsDir(WithDirs(fs, created[..k][..j]), Parent(created[..k][j])) {
      assert created[..k][..j] == created[..j];
    }
  }

  lemma GrowsByOne(fs: Tree, created: seq<Path>, p: Path)
    requires Grows(fs, created) && p != [] && p !in WithDirs(fs, created) && IsDir(WithDirs(fs, created), Parent(p))
    ensures Grows(fs, created + [p]) && WithDirs(fs, created + [p]) == WithDirs(fs, created)[p := Dir]
  {
    var more := created + [p];
    WithDirsHas(fs, created, p);
    assert more[..|more| - 1] == created;
    forall j | 0 <= j < |more| ensures more[j] != [] && more[j] !in fs
      ensures IsDir(WithDirs(fs, more[..j]), Parent(more[j]))
    {
      if j < |created| {
        assert more[..j] == created[..j];
      }
    }
  }

  lemma {:induction false} GrownIsWellFormed(fs: Tree, created: seq<Path>)
    requires WellFormed(fs) && Grows(fs, created)
    ensures WellFormed(WithDirs(fs, created))
  {
    if created != [] {
      var n := |created| - 1;
      GrowsPrefix(fs, created, n);
      GrownIsWellFormed(fs, created[..n]);
      var before := WithDirs(fs, created[..n]);
      WithDirsHas(fs, created[..n], created[n]);
      assert before[created[n] := Dir] == WithDirs(fs, created);
      assert created[n] !in before;
    }
  }

  /** The step from `p` towards `q`. */
  function Toward(p: Path, q: Path): Path {
    if |p| < |q| then q[..|p| + 1] else q
  }

  /** Nothing sits directly inside the directory created last. */
  lemma LastHasNoChild(fs: Tree, created: seq<Path>, c: Path)
    requires WellFormed(fs) && Grows(fs, created) && created != [] && c != []
    ensures Parent(c) == created[|created| - 1] ==> c !in WithDirs(fs, created)
  {
    WithDirsHas(fs, created, c);
    forall j | 0 <= j < |created|
      ensures created[j] == c ==> Parent(c) != created[|created| - 1]
    {
      WithDirsHas(fs, created[..j], Parent(created[j]));
    }
  }

  lemma LastIsChildless(fs: Tree, created: seq<Path>)
    requires WellFormed(fs) && Grows(fs, created) && created != []
    ensures Childless(WithDirs(fs, created), created[|created| - 1])
  {
    var last, now := created[|created| - 1], WithDirs(fs, created);
    GrownIsWellFormed(fs, created);
    forall q | q in now && last <= q ensures q == last {
      var c := Toward(last, q);
      ClosedUnderParents(now, c, q[|c|..]);
      SplitAt(c, q);
      if c != [] { LastHasNoChild(fs, created, c); }
    }
  }

  /** Reverse-order removal; it stops at the first directory that cannot go. */
  method Sweep(disk: FileSystem, paths: seq<Path>) returns (ghost kept: nat)
    modifies disk
    ensures disk.clock >= old(disk.clock)
    ensures kept <= |paths| && disk.fs == old(disk.fs) - (set p | p in paths[kept..])
    ensures kept > 0 ==> disk.clock > old(disk.clock)
    ensures kept > 0 ==>
      || disk.stuck(disk.clock - 1) || !IsDir(disk.fs, paths[kept - 1])
      || !Childless(disk.fs, paths[kept - 1])
    ensures kept < |paths| ==> Childless(old(disk.fs), paths[|paths| - 1])
  {
    kept := |paths|;
    var k := |paths|;
    while k > 0
      invariant 0 <= k <= |paths| && kept == k && disk.clock >= old(disk.clock)
      invariant disk.fs == old(disk.fs) - (set p | p in paths[k..])
      invariant k < |paths| ==> Childless(old(disk.fs), paths[|paths| - 1])
    {
      var ok := disk.Rmdir(paths[k - 1]);
      if !ok {
        return;
      }
      assert paths[k - 1..] == [paths[k - 1]] + paths[k..];
      k, kept := k - 1, k - 1;
    }
  }

  lemma WithoutTailAt(fs: Tree, created: seq<Path>, k: nat, p: Path)
    requires Grows(fs, created) && k <= |created|
    ensures Same(WithDirs(fs, created) - (set q | q in created[k..]), WithDirs(fs, created[..k]), p)
  {
    hide WithDirs;
    WithDirsHas(fs, created, p);
    WithDirsHas(fs, created[..k], p);
    if p in created {
      var j :| 0 <= j < |created| && created[j] == p;
      assert if j < k then created[..k][j] == p else created[k..][j - k] == p;
    }
  }

  lemma WithoutTail(fs: Tree, created: seq<Path>, k: nat)
    requires Grows(fs, created) && k <= |created|
    ensures WithDirs(fs, created) - (set p | p in created[k..]) == WithDirs(fs, created[..k])
  {
    hide WithDirs, Grows;
    var l, r := WithDirs(fs, created) - (set q | q in created[k..]), WithDirs(fs, created[..k]);
    forall p ensures Same(l, r, p) {
      WithoutTailAt(fs, created, k, p);
    }
    SameEverywhere(l, r);
  }

  /** Sweeping what was created, with nothing else around, restores the tree unless a removal fails. */
  lemma SweepRestores(fs: Tree, created: seq<Path>, kept: nat, after: Tree)
    requires WellFormed(fs) && Grows(fs, created) && kept <= |created|
    requires after == WithDirs(fs, created) - (set p | p in created[kept..])
    ensures Grows(fs, created[..kept]) && after == WithDirs(fs, created[..kept])
    ensures forall c :: c in created[..kept] ==> c in created
    ensures kept > 0 ==> IsDir(after, created[kept - 1]) && Childless(after, created[kept - 1])
    ensures kept == 0 ==> after == fs
  {
    WithoutTail(fs, created, kept);
    GrowsPrefix(fs, created, kept);
    if kept > 0 {
      LastIsChildless(fs, created[..kept]);
      WithDirsHas(fs, created[..kept], created[kept - 1]);
    }
  }

  /** The missing directories from `path` upwards, each the parent of the one before. */
  ghost predicate UpwardChain(fs: Tree, path: Path, missing: seq<Path>) {
    && (forall j :: 0 <= j < |missing| ==> missing[j] != [] && missing[j] !in fs && missing[j] <= path)
    && (forall j :: 0 <= j < |missing| - 1 ==> Parent(missing[j]) == missing[j + 1])
    && (missing != [] ==> missing[0] == path)
  }

  method FindMissing(disk: FileSystem, path: Path) returns (missing: seq<Path>, current: Path)
    requires WellFormed(disk.fs)
    ensures UpwardChain(disk.fs, path, missing)
    ensures current in disk.fs && current <= path
    ensures if missing == [] then current == path else current == Parent(missing[|missing| - 1])
  {
    missing, current := [], path;
    while current !in disk.fs
      invariant current <= path && UpwardChain(disk.fs, path, missing)
      invariant if missing == [] then current == path else current == Parent(missing[|missing| - 1])
      decreases |current|
    {
      missing := missing + [current];
      current := Parent(current);
    }
  }

  /** Creates the missing directories from the outermost inwards. */
  method MakeMissing(disk: FileSystem, path: Path, missing: seq<Path>) returns (ok: bool, made: seq<Path>)
    requires WellFormed(disk.fs) && UpwardChain(disk.fs, path, missing)
    requires IsDir(disk.fs, if missing == [] then path else Parent(missing[|missing| - 1]))
    modifies disk
    ensures disk.clock >= old(disk.clock)
    ensures Grows(old(disk.fs), made) && disk.fs == WithDirs(old(disk.fs), made)
    ensures forall c :: c in made ==> c <= path
    ensures ok ==> IsDir(disk.fs, path) && (made != [] ==> made[|made| - 1] == path)
    ensures !ok ==> disk.Faulted(old(disk.clock))
  {
    hide Grows, WithDirs, WellFormed;
    made, ok := [], true;
    GrowsNothing(disk.fs);
    var k := |missing|;
    while k > 0
      invariant 0 <= k <= |missing| && disk.clock >= old(disk.clock)
      invariant Grows(old(disk.fs), made) && disk.fs == WithDirs(old(disk.fs), made)
      invariant forall c :: c in made ==> c <= path && (k > 0 ==> |c| < |missing[k - 1]|)
      invariant IsDir(disk.fs, if k == 0 then path else Parent(missing[k - 1]))
      invariant made != [] ==> k < |missing| && made[|made| - 1] == missing[k]
    {
      WithDirsHas(old(disk.fs), made, missing[k - 1]);
      ok := disk.Mkdir(missing[k - 1]);
      if !ok {
        return;
      }
      k := k - 1;
      GrowsByOne(old(disk.fs), made, missing[k]);
      made := made + [missing[k]];
    }
  }

  method EnsureParentDirectory(disk: FileSystem, path: Path) returns (created: Option<seq<Path>>, ghost left: seq<Path>)
    requires WellFormed(disk.fs)
    modifies disk
    ensures disk.clock >= old(disk.clock)
    ensures created.Some? ==> Grows(old(disk.fs), created.value) && disk.fs == WithDirs(old(disk.fs), created.value)
    ensures created.Some? ==> IsDir(disk.fs, path) && forall c :: c in created.value ==> c <= path
    ensures created.Some? && created.value != [] ==> created.value[|created.value| - 1] == path
    ensures created.None? ==>
      Grows(old(disk.fs), left) && disk.fs == WithDirs(old(disk.fs), left) && forall c :: c in left ==> c <= path
    ensures created.None? && disk.Removable(old(disk.clock)) ==> disk.fs == old(disk.fs)
    ensures created.None? ==> disk.Faulted(old(disk.clock)) || FileInTheWay(old(disk.fs), path)
  {
    hide WithDirs, Grows, WellFormed;
    var missing, current := FindMissing(disk, path);
    GrowsNothing(disk.fs);
    if !IsDir(disk.fs, current) {
      return None, [];
    }
    var ok, made := MakeMissing(disk, path, missing);
    if !ok {
      ghost var kept := Sweep(disk, made);
      SweepRestores(old(disk.fs), made, kept, disk.fs);
      return None, made[..kept];
    }
    created, left := Some(made), made;
  }

  /** Some part of the path exists and is not a directory. */
  ghost predicate FileInTheWay(fs: Tree, path: Path) {
    exists p :: p <= path && p in fs && !IsDir(fs, p)
  }

  // ----- Parents of the targets

  /** What preparing one more target may add. */
  ghost predicate Prepared(fs0: Tree, fs: Tree, installRoot: Path, targets: seq<Path>, created: seq<Path>) {
    && Grows(fs0, created) && fs == WithDirs(fs0, created)
    && forall c :: c in created ==> c <= installRoot || exists t :: t in targets && t != [] && c <= Parent(t)
  }

  /** Everything in `part` is still there. */
  ghost predicate Includes(whole: Tree, part: Tree) {
    forall p :: p in part ==> p in whole && whole[p] == part[p]
  }

  /** The first `k` targets lie under the root, and have a directory to go to if the root is one. */
  ghost predicate ParentsReady(fs: Tree, installRoot: Path, targets: seq<Path>, k: nat) {
    forall j :: 0 <= j < k && j < |targets| && targets[j] != [] ==>
      installRoot <= Parent(targets[j]) && (IsDir(fs, installRoot) ==> IsDir(fs, Parent(targets[j])))
  }

  lemma PreparedByOne(fs0: Tree, fs: Tree, installRoot: Path, targets: seq<Path>, created: seq<Path>, p: Path, t: Path)
    requires Prepared(fs0, fs, installRoot, targets, created)
    requires p != [] && p !in fs && IsDir(fs, Parent(p)) && t in targets && t != [] && p <= Parent(t)
    ensures Prepared(fs0, fs[p := Dir], installRoot, targets, created + [p])
  {
    GrowsByOne(fs0, created, p);
  }

  method PrepareParentsOf(disk: FileSystem, installRoot: Path, target: Path, created0: seq<Path>,
                          ghost targets: seq<Path>, ghost fs0: Tree)
    returns (ok: bool, created: seq<Path>)
    requires Prepared(fs0, disk.fs, installRoot, targets, created0) && target in targets && target != []
    modifies disk
    ensures disk.clock >= old(disk.clock)
    ensures Prepared(fs0, disk.fs, installRoot, targets, created)
    ensures Includes(disk.fs, old(disk.fs))
    ensures ok ==> installRoot <= Parent(target) && (IsDir(disk.fs, installRoot) ==> IsDir(disk.fs, Parent(target)))
    ensures !ok && installRoot <= Parent(target) && IsDir(old(disk.fs), installRoot) ==>
              disk.Faulted(old(disk.clock)) || FileInTheWay(fs0, Parent(target))
  {
    hide Grows, WithDirs;
    created, ok := created0, installRoot <= Parent(target);
    if !ok {
      return;
    }
    var n := |installRoot|;
    assert target[..n] == installRoot;
    while n < |target| - 1
      invariant |installRoot| <= n <= |target| - 1 && disk.clock >= old(disk.clock) && ok
      invariant Prepared(fs0, disk.fs, installRoot, targets, created)
      invariant Includes(disk.fs, old(disk.fs))
      invariant IsDir(old(disk.fs), installRoot) ==> IsDir(disk.fs, target[..n])
      invariant n > |installRoot| ==> IsDir(disk.fs, target[..n])
    {
      var current := target[..n + 1];
      assert Parent(current) == target[..n] && current <= Parent(target);
      if current in disk.fs {
        WithDirsHas(fs0, created, current);
        ok := IsDir(disk.fs, current);
      } else {
        ok := disk.Mkdir(current);
        if ok {
          PreparedByOne(fs0, disk.fs - {current}, installRoot, targets, created, current, target);
          assert (disk.fs - {current})[current := Dir] == disk.fs;
          created := created + [current];
        }
      }
      if !ok {
        return;
      }
      n := n + 1;
    }
    assert target[..|target| - 1] == Parent(target) && target[..|installRoot|] == installRoot;
    ok := disk.Probe();
  }

  method PrepareTargetParents(disk: FileSystem, installRoot: Path, targets: seq<Path>)
    returns (result: Option<seq<Path>>, ghost left: seq<Path>)
    requires WellFormed(disk.fs) && forall t :: t in targets ==> t != []
    modifies disk
    ensures disk.clock >= old(disk.clock)
    ensures result.Some? ==>
      && Prepared(old(disk.fs), disk.fs, installRoot, targets, result.value)
      && installRoot in disk.fs
    ensures result.Some? ==> ParentsReady(disk.fs, installRoot, targets, |targets|)
    ensures result.Some? && !FileInTheWay(old(disk.fs), installRoot) ==> IsDir(disk.fs, installRoot)
    ensures result.None? ==> Prepared(old(disk.fs), disk.fs, installRoot, targets, left)
    ensures result.None? && disk.Removable(old(disk.clock)) ==> left == []
    ensures result.None? ==>
      || disk.Faulted(old(disk.clock))
      || FileInTheWay(old(disk.fs), installRoot)
      || exists t :: t in targets && (!(installRoot <= Parent(t)) || FileInTheWay(old(disk.fs), Parent(t)))
  {
    hide Grows, WithDirs;
    GrowsNothing(disk.fs);
    var created: seq<Path> := [];
    if installRoot !in disk.fs {
      var root;
      root, left := EnsureParentDirectory(disk, installRoot);
      if root.None? {
        NothingLeft(old(disk.fs), left);
        return None, left;
      }
      created := root.value;
    }
    for k := 0 to |targets|
      invariant disk.clock >= old(disk.clock)
      invariant Prepared(old(disk.fs), disk.fs, installRoot, targets, created) && installRoot in disk.fs
      invariant !FileInTheWay(old(disk.fs), installRoot) ==> IsDir(disk.fs, installRoot)
      invariant ParentsReady(disk.fs, installRoot, targets, k)
    {
      var ok;
      ok, created := PrepareParentsOf(disk, installRoot, targets[k], created, targets, old(disk.fs));
      if !ok {
        ghost var kept := Sweep(disk, created);
        SweepRestores(old(disk.fs), created, kept, disk.fs);
        return None, created[..kept];
      }
    }
    result, left := Some(created), created;
  }

  /** Nothing new means nothing was left. */
  lemma NothingLeft(fs: Tree, left: seq<Path>)
    requires Grows(fs, left)
    ensures WithDirs(fs, left) == fs ==> left == []
  {
    if left != [] {
      WithDirsHas(fs, left, left[0]);
    }
  }

  // ----- Staging

  /** `fs` with the tree `t` written at `root`. */
  function Graft(fs: Tree, root: Path, t: Tree): Tree {
    map p | p in fs.Keys + (set s | s in t :: root + s) && ((root <= p && p[|root|..] in t) || p in fs)
      :: if root <= p && p[|root|..] in t then t[p[|root|..]] else fs[p]
  }

  lemma GraftHas(fs: Tree, root: Path, t: Tree, p: Path)
    ensures p in Graft(fs, root, t) <==> p in fs || (root <= p && p[|root|..] in t)
    ensures root <= p && p[|root|..] in t ==> Graft(fs, root, t)[p] == t[p[|root|..]]
    ensures !(root <= p && p[|root|..] in t) && p in fs ==> Graft(fs, root, t)[p] == fs[p]
  {
    if root <= p && p[|root|..] in t {
      SplitAt(root, p);
    }
  }

  lemma GraftParent(fs: Tree, root: Path, t: Tree, p: Path)
    requires WellFormed(fs) && WellFormed(t) && root != [] && root !in fs && IsDir(fs, Parent(root)) && p != []
    ensures p in Graft(fs, root, t) ==> IsDir(Graft(fs, root, t), Parent(p))
  {
    GraftHas(fs, root, t, p);
    GraftHas(fs, root, t, Parent(p));
    if root <= p && p[|root|..] in t {
      var s := p[|root|..];
      SplitAt(root, p);
      if s == [] {
        assert p == root;
      } else {
        assert Parent(p) == root + Parent(s) && Parent(p)[|root|..] == Parent(s);
      }
    } else if p in fs {
      if root <= Parent(p) {
        ClosedUnderParents(fs, root, Parent(p)[|root|..]);
        SplitAt(root, Parent(p));
      }
    }
  }

  lemma GraftIsWellFormed(fs: Tree, root: Path, t: Tree)
    requires WellFormed(fs) && WellFormed(t) && root != [] && root !in fs && IsDir(fs, Parent(root))
    ensures WellFormed(Graft(fs, root, t))
  {
    GraftHas(fs, root, t, []);
    forall p | p in Graft(fs, root, t) && p != [] ensures IsDir(Graft(fs, root, t), Parent(p)) {
      GraftParent(fs, root, t, p);
    }
  }

  /** Removing the stage leaves what was there before it. */
  lemma UngraftExact(fs: Tree, root: Path, t: Tree)
    requires WellFormed(fs) && root !in fs
    ensures Prune(Graft(fs, root, t), root, {}) == fs
  {
    var after := Prune(Graft(fs, root, t), root, {});
    forall p ensures Same(fs, after, p) {
      GraftHas(fs, root, t, p);
      if root <= p {
        ClosedUnderParents(fs, root, p[|root|..]);
        SplitAt(root, p);
      }
    }
    SameEverywhere(fs, after);
  }

  lemma GraftKeeps(fs: Tree, root: Path, t: Tree, r: Path)
    requires Apart(r, root)
    ensures At(Graft(fs, root, t), r) == At(fs, r)
  {
    forall s ensures Same(fs, Graft(fs, root, t), r + s) {
      PrefixesCompare(root, r, r + s);
      GraftHas(fs, root, t, r + s);
    }
    SameTree(Graft(fs, root, t), r, fs, r);
  }

  lemma GraftedAt(fs: Tree, root: Path, t: Tree, name: string)
    requires WellFormed(fs) && root !in fs
    ensures At(Graft(fs, root, t), root + [name]) == At(t, [name])
  {
    hide At, Graft;
    var here := root + [name];
    forall s ensures Same(At(t, [name]), At(Graft(fs, root, t), here), s) {
      AtHas(t, [name], s);
      AtHas(Graft(fs, root, t), here, s);
      GraftHas(fs, root, t, here + s);
      assert (here + s)[|root|..] == [name] + s;
      ClosedUnderParents(fs, root, [name] + s);
      assert root + ([name] + s) == here + s;
    }
    SameEverywhere(At(t, [name]), At(Graft(fs, root, t), here));
  }

  /** `r` neither is nor contains one of the directories. */
  ghost predicate HoldsNone(r: Path, created: seq<Path>) {
    forall c :: c in created ==> !(r <= c)
  }

  lemma GrowthKeeps(fs: Tree, created: seq<Path>, r: Path)
    requires HoldsNone(r, created)
    ensures At(WithDirs(fs, created), r) == At(fs, r)
  {
    forall s ensures Same(fs, WithDirs(fs, created), r + s) {
      WithDirsHas(fs, created, r + s);
    }
    SameTree(WithDirs(fs, created), r, fs, r);
  }

  lemma SweepKeeps(fs: Tree, created: seq<Path>, kept: nat, r: Path)
    requires HoldsNone(r, created) && kept <= |created|
    ensures At(fs - (set p | p in created[kept..]), r) == At(fs, r)
  {
    var after := fs - (set p | p in created[kept..]);
    forall s ensures Same(fs, after, r + s) {
      assert r + s in created[kept..] ==> r + s in created;
    }
    SameTree(after, r, fs, r);
  }

  // ----- The whole install

  /** One tree to install: the name it is staged under, and where it goes. */
  datatype Entry = Entry(stageName: Option<string>, target: Path)

  /** `staged` is everything the staging steps write below the temporary directory; when they fail,
      `stagingOk` is false and `staged` is what they had written by then. */
  datatype Request = Request(installRoot: Path, entries: seq<Entry>, stageName: string, staged: Tree,
                             stagingOk: bool, token: string)
  {
    function StageRoot(): Path
      requires installRoot != []
    {
      Parent(installRoot) + [stageName]
    }

    function Targets(): (t: seq<Path>)
      ensures |t| == |entries| && forall i :: 0 <= i < |t| ==> t[i] == entries[i].target
    {
      seq(|entries|, i requires 0 <= i < |entries| => entries[i].target)
    }

    function Staging(): (s: seq<Staged>)
      requires installRoot != []
      ensures |s| == |entries|
      ensures forall i :: 0 <= i < |s| ==> s[i] == Staged(StagedAt(entries[i].stageName), entries[i].target)
    {
      seq(|entries|, i requires 0 <= i < |entries| => Staged(StagedAt(entries[i].stageName), entries[i].target))
    }

    function StagedAt(name: Option<string>): Option<Path>
      requires installRoot != []
    {
      if name.Some? then Some(StageRoot() + [name.value]) else None
    }
  }

  /** How an install ends: normally, or with an exception after one of three things. The removal of the
      temporary directory raises when it fails, also after the targets have been switched; raised after
      a refusal or a failed rollback, it takes the place of their exception and changes no more. */
  datatype InstallOutcome = Installed | SwitchedButRaised | Refused | RollbackBroken

  /** What the validation demands: targets that differ and lie strictly under the root. */
  ghost predicate AcceptedTargets(installRoot: Path, targets: seq<Path>) {
    Distinct(targets) && forall t :: t in targets ==> installRoot <= t && t != installRoot
  }

  /** Every target is new to the list and strictly below the install root. */
  method ValidateTargetPaths(installRoot: Path, targets: seq<Path>) returns (ok: bool)
    ensures ok <==> AcceptedTargets(installRoot, targets)
  {
    var seen: set<Path> := {};
    for k := 0 to |targets|
      invariant seen == set t | t in targets[..k]
      invariant Distinct(targets[..k]) && forall t :: t in targets[..k] ==> installRoot <= t && t != installRoot
    {
      var target := targets[k];
      assert targets[..k + 1] == targets[..k] + [target];
      assert targets[..k + 1] <= targets;
      if target in seen || !(installRoot <= target) || target == installRoot {
        assert target in targets;
        if target in targets[..k] {
          var j :| 0 <= j < k && targets[j] == target;
        }
        return false;
      }
      seen := seen + {target};
    }
    assert targets[..|targets|] == targets;
    ok := true;
  }

  ghost predicate TokenNowhere(r: Request, fs: Tree) {
    forall i :: 0 <= i < |r.entries| && r.entries[i].target != [] ==>
      TokenAbsent(r, fs, BackupName(r.entries[i].target[|r.entries[i].target| - 1], r.token))
  }

  ghost predicate TokenAbsent(r: Request, fs: Tree, name: string) {
    && (forall p :: p in fs ==> name !in p)
    && (forall p :: p in r.staged ==> name !in p)
    && (forall j :: 0 <= j < |r.entries| ==> name !in r.entries[j].target && r.entries[j].stageName != Some(name))
    && name !in r.installRoot && name != r.stageName
  }

  /** What the installer relies on: fresh random names, a well-formed disk and stage, separate entries. */
  ghost predicate Admissible(r: Request, fs: Tree) {
    && WellFormed(fs) && WellFormed(r.staged)
    && r.installRoot != [] && r.stageName != r.installRoot[|r.installRoot| - 1] && r.StageRoot() !in fs
    && (forall i, j :: 0 <= i < j < |r.entries| ==> Apart(r.entries[i].target, r.entries[j].target))
    && (forall i, j :: 0 <= i < j < |r.entries| && r.entries[i].stageName.Some? ==>
        r.entries[i].stageName != r.entries[j].stageName)
    && TokenNowhere(r, fs)
  }

  ghost predicate Validated(r: Request) {
    forall i :: 0 <= i < |r.entries| ==> r.installRoot <= r.entries[i].target && r.entries[i].target != r.installRoot
  }

  lemma StageRootApart(r: Request, p: Path)
    requires r.installRoot != [] && r.stageName != r.installRoot[|r.installRoot| - 1] && r.installRoot <= p
    ensures Apart(r.StageRoot(), p)
  {
    PrefixesCompare(r.StageRoot(), r.installRoot, p);
    ChildDeterminesName(r.StageRoot(), r.installRoot);
  }

  /** Directories created for this install: ancestors of the install root or of some target. */
  ghost predicate AncestorsOnly(r: Request, created: seq<Path>) {
    forall c :: c in created ==>
      || c <= r.installRoot
      || exists i :: 0 <= i < |r.entries| && r.entries[i].target != [] && c <= Parent(r.entries[i].target)
  }

  /** The paths in force when the activation starts carry no trace of the token. */
  lemma TokenStillAbsent(r: Request, fs0: Tree, made: seq<Path>, made2: seq<Path>, name: string)
    requires r.installRoot != [] && TokenAbsent(r, fs0, name) && AncestorsOnly(r, made) && AncestorsOnly(r, made2)
    ensures forall p :: p in WithDirs(Graft(WithDirs(fs0, made), r.StageRoot(), r.staged), made2) ==> name !in p
  {
    var fs1 := WithDirs(fs0, made);
    var fs2 := Graft(fs1, r.StageRoot(), r.staged);
    forall p | p in WithDirs(fs2, made2) ensures name !in p {
      WithDirsHas(fs2, made2, p);
      GraftHas(fs1, r.StageRoot(), r.staged, p);
      WithDirsHas(fs0, made, p);
      if r.StageRoot() <= p {
        SplitAt(r.StageRoot(), p);
      }
    }
  }

  lemma SiblingsApart(root: Path, a: string, b: string)
    requires a != b
    ensures Apart(root + [a], root + [b])
  {
    assert (root + [a])[|root|] == a && (root + [b])[|root|] == b;
  }

  lemma StagedSourceApart(r: Request, name: string, target: Path)
    requires r.installRoot != [] && r.stageName != r.installRoot[|r.installRoot| - 1] && r.installRoot <= target
    ensures Apart(r.StageRoot() + [name], target)
  {
    StageRootApart(r, target);
    assert r.StageRoot() <= r.StageRoot() + [name];
    PrefixesCompare(r.StageRoot(), target, r.StageRoot() + [name]);
    PrefixTransitive(r.StageRoot(), r.StageRoot() + [name], target);
  }

  lemma StagingSeparate(r: Request, fs: Tree)
    requires Admissible(r, fs) && Validated(r)
    ensures SeparateEntries(r.Staging())
  {
    hide Apart, WellFormed, TokenNowhere;
    forall i, j | 0 <= i < |r.entries| && 0 <= j < |r.entries| && r.Staging()[i].source.Some?
      ensures Apart(r.Staging()[i].source.value, r.Staging()[j].target)
    {
      StagedSourceApart(r, r.entries[i].stageName.value, r.entries[j].target);
    }
    forall i, j | 0 <= i < j < |r.entries| && r.Staging()[i].source.Some? && r.Staging()[j].source.Some?
      ensures Apart(r.Staging()[i].source.value, r.Staging()[j].source.value)
    {
      SiblingsApart(r.StageRoot(), r.entries[i].stageName.value, r.entries[j].stageName.value);
    }
  }

  lemma ReadyToActivate(r: Request, fs0: Tree, made: seq<Path>, made2: seq<Path>)
    requires Admissible(r, fs0) && Validated(r)
    requires Grows(fs0, made) && IsDir(WithDirs(fs0, made), Parent(r.installRoot)) && AncestorsOnly(r, made)
    requires r.StageRoot() !in WithDirs(fs0, made)
    requires Grows(Graft(WithDirs(fs0, made), r.StageRoot(), r.staged), made2) && AncestorsOnly(r, made2)
    ensures Stageable(WithDirs(Graft(WithDirs(fs0, made), r.StageRoot(), r.staged), made2), r.Staging(), r.token)
  {
    hide WithDirs, Graft, Grows, WellFormed, AncestorsOnly, SeparateEntries;
    var fs1 := WithDirs(fs0, made);
    var fs2 := Graft(fs1, r.StageRoot(), r.staged);
    GrownIsWellFormed(fs0, made);
    assert Parent(r.StageRoot()) == Parent(r.installRoot);
    GraftIsWellFormed(fs1, r.StageRoot(), r.staged);
    GrownIsWellFormed(fs2, made2);
    StagingSeparate(r, fs0);
    forall i | 0 <= i < |r.entries| && r.entries[i].target != []
      ensures var name := BackupName(r.entries[i].target[|r.entries[i].target| - 1], r.token);
        TokenAbsent(r, fs0, name) && forall p :: p in WithDirs(fs2, made2) ==> name !in p
    {
      TokenStillAbsent(r, fs0, made, made2, BackupName(r.entries[i].target[|r.entries[i].target| - 1], r.token));
    }
  }

  /** Taking the stage and the created directories away again restores the disk. */
  lemma UndoStage(r: Request, fs0: Tree, made: seq<Path>)
    requires WellFormed(fs0) && Grows(fs0, made) && r.installRoot != [] && r.StageRoot() !in WithDirs(fs0, made)
    ensures Prune(Graft(WithDirs(fs0, made), r.StageRoot(), r.staged), r.StageRoot(), {}) == WithDirs(fs0, made)
  {
    GrownIsWellFormed(fs0, made);
    UngraftExact(WithDirs(fs0, made), r.StageRoot(), r.staged);
  }

  /** The end of a failed or finished attempt: remove the stage, then sweep the staging parents. A
      failing removal of the stage raises, after the sweep; a failing sweep does not. */
  method CleanUp(disk: FileSystem, r: Request, made: seq<Path>)
    returns (removed: bool, ghost kept: nat, ghost survivors: set<Path>)
    requires r.installRoot != []
    modifies disk
    ensures disk.clock > old(disk.clock) && kept <= |made|
    ensures removed == !disk.stuck(old(disk.clock))
    ensures survivors == if removed then {} else disk.leftovers(old(disk.clock))
    ensures disk.fs == Prune(old(disk.fs), r.StageRoot(), survivors) - (set p | p in made[kept..])
    ensures disk.Removable(old(disk.clock)) ==> survivors == {}
    ensures kept > 0 ==>
      || !disk.Removable(old(disk.clock)) || !IsDir(disk.fs, made[kept - 1])
      || !Childless(disk.fs, made[kept - 1])
    ensures kept < |made| ==> Childless(Prune(old(disk.fs), r.StageRoot(), survivors), made[|made| - 1])
  {
    survivors := if disk.stuck(disk.clock) then disk.leftovers(disk.clock) else {};
    removed := disk.RemovePath(r.StageRoot());
    kept := Sweep(disk, made);
  }

  lemma CleanedCompletely(r: Request, fs0: Tree, made: seq<Path>, kept: nat, after: Tree)
    requires WellFormed(fs0) && Grows(fs0, made) && r.installRoot != [] && r.StageRoot() !in WithDirs(fs0, made)
    requires kept <= |made|
    requires after ==
      Prune(Graft(WithDirs(fs0, made), r.StageRoot(), r.staged), r.StageRoot(), {}) - (set p | p in made[kept..])
    requires kept > 0 ==> !IsDir(after, made[kept - 1]) || !Childless(after, made[kept - 1])
    ensures after == fs0
  {
    UndoStage(r, fs0, made);
    SweepRestores(fs0, made, kept, after);
  }

  // ----- Results

  /** The old tree of every target is at the target or at its backup path. */
  ghost predicate OldTreesSafe(r: Request, fs0: Tree, fs: Tree) {
    forall i :: 0 <= i < |r.entries| && r.entries[i].target != [] ==>
      || At(fs, r.entries[i].target) == At(fs0, r.entries[i].target)
      || At(fs, BackupPath(r.entries[i].target, r.token)) == At(fs0, r.entries[i].target)
  }

  /** The tree that an entry asks for; empty for an entry that only takes the old one away. */
  function Wanted(r: Request, i: nat): Tree
    requires i < |r.entries|
  {
    if r.entries[i].stageName.Some? then At(r.staged, [r.entries[i].stageName.value]) else map[]
  }

  /** The path belongs to a target, to a backup or to the temporary directory. */
  ghost predicate Touched(r: Request, p: Path) {
    || (r.installRoot != [] && r.StageRoot() <= p)
    || exists i :: 0 <= i < |r.entries| && r.entries[i].target != [] &&
         (r.entries[i].target <= p || BackupPath(r.entries[i].target, r.token) <= p)
  }

  /** Every target holds its staged tree; elsewhere old entries are as before and new ones are
      directories leading to the install root or to a target. */
  ghost predicate InstalledState(r: Request, fs0: Tree, fs: Tree) {
    && (forall i :: 0 <= i < |r.entries| ==> At(fs, r.entries[i].target) == Wanted(r, i))
    && (forall p :: p in fs0 && !Touched(r, p) ==> p in fs && fs[p] == fs0[p])
    && (forall p :: p in fs && p !in fs0 && !Touched(r, p) ==> fs[p] == Dir && AncestorsOnly(r, [p]))
    && r.installRoot in fs
  }

  /** Nothing stands in the way of the install but faults of the machine. */
  ghost predicate CanInstall(r: Request, fs: Tree) {
    && r.stagingOk && Validated(r)
    && !FileInTheWay(fs, r.installRoot)
    && (forall i :: 0 <= i < |r.entries| && r.entries[i].target != [] ==>
        !FileInTheWay(fs, Parent(r.entries[i].target)))
    && (forall i :: 0 <= i < |r.entries| && r.entries[i].stageName.Some? ==> [r.entries[i].stageName.value] in r.staged)
  }

  /** Some entry brings a tree; the installer's own three always do. */
  ghost predicate BringsSomething(r: Request) {
    exists i :: 0 <= i < |r.entries| && r.entries[i].stageName.Some?
  }

  /** A directory leading to target `u` is outside target `t` and its backup. */
  lemma OutsideAncestors(t: Path, u: Path, token: string, c: Path)
    requires t != [] && u != [] && (t == u || Apart(t, u))
    requires BackupName(t[|t| - 1], token) !in u
    ensures c <= Parent(u) ==> !(t <= c) && !(BackupPath(t, token) <= c)
  {
    var b := BackupPath(t, token);
    LastNameIn(b, u);
    PrefixTransitive(t, c, Parent(u));
    PrefixTransitive(t, Parent(u), u);
    PrefixTransitive(b, c, Parent(u));
    PrefixTransitive(b, Parent(u), u);
  }

  lemma ShorterIsOutside(t: Path, c: Path, root: Path)
    requires |root| < |t|
    ensures c <= root ==> !(t <= c)
  {
  }

  /** The created directories and the stage are outside every target and every backup. */
  lemma TargetsAreFree(r: Request, fs: Tree, made: seq<Path>, i: nat)
    requires Admissible(r, fs) && Validated(r) && AncestorsOnly(r, made) && i < |r.entries|
    ensures HoldsNone(r.entries[i].target, made) && Apart(r.StageRoot(), r.entries[i].target)
    ensures HoldsNone(BackupPath(r.entries[i].target, r.token), made)
    ensures Apart(r.StageRoot(), BackupPath(r.entries[i].target, r.token))
  {
    hide Apart, WellFormed;
    var t := r.entries[i].target;
    var b := BackupPath(t, r.token);
    assert Parent(b) == Parent(t) && r.installRoot <= Parent(t);
    StageRootApart(r, t);
    StageRootApart(r, b);
    assert TokenAbsent(r, fs, BackupName(t[|t| - 1], r.token));
    forall c | c in made ensures !(t <= c) && !(b <= c) {
      ShorterIsOutside(t, c, r.installRoot);
      ShorterIsOutside(b, c, r.installRoot);
      if !(c <= r.installRoot) {
        var j :| 0 <= j < |r.entries| && r.entries[j].target != [] && c <= Parent(r.entries[j].target);
        assert t == r.entries[j].target || Apart(t, r.entries[j].target) by { ApartEitherWay(r, i, j); }
        OutsideAncestors(t, r.entries[j].target, r.token, c);
      }
    }
  }

  lemma ApartEitherWay(r: Request, i: nat, j: nat)
    requires i < |r.entries| && j < |r.entries|
    requires forall a, b :: 0 <= a < b < |r.entries| ==> Apart(r.entries[a].target, r.entries[b].target)
    ensures i == j || Apart(r.entries[i].target, r.entries[j].target)
  {
  }

  lemma CleaningKeeps(r: Request, fs: Tree, made: seq<Path>, survivors: set<Path>, kept: nat, x: Path)
    requires r.installRoot != [] && Apart(r.StageRoot(), x) && HoldsNone(x, made) && kept <= |made|
    ensures At(Prune(fs, r.StageRoot(), survivors) - (set p | p in made[kept..]), x) == At(fs, x)
  {
    PruneKeeps(fs, r.StageRoot(), survivors, x);
    SweepKeeps(Prune(fs, r.StageRoot(), survivors), made, kept, x);
  }

  /** Before the activation every target is as it was at the start. */
  lemma PreparationKeeps(r: Request, fs0: Tree, made: seq<Path>, made2: seq<Path>, x: Path)
    requires r.installRoot != [] && Apart(r.StageRoot(), x) && HoldsNone(x, made) && HoldsNone(x, made2)
    ensures At(WithDirs(Graft(WithDirs(fs0, made), r.StageRoot(), r.staged), made2), x) == At(fs0, x)
  {
    GrowthKeeps(fs0, made, x);
    GraftKeeps(WithDirs(fs0, made), r.StageRoot(), r.staged, x);
    GrowthKeeps(Graft(WithDirs(fs0, made), r.StageRoot(), r.staged), made2, x);
  }

  /** The stages of one attempt: after the staging parents, the stage, and the target parents. */
  ghost predicate Staged3(r: Request, fs0: Tree, made: seq<Path>, made2: seq<Path>, fs3: Tree) {
    && r.installRoot != [] && r.StageRoot() !in WithDirs(fs0, made)
    && Grows(fs0, made) && AncestorsOnly(r, made) && IsDir(WithDirs(fs0, made), Parent(r.installRoot))
    && (made != [] ==> made[|made| - 1] == Parent(r.installRoot))
    && Grows(Graft(WithDirs(fs0, made), r.StageRoot(), r.staged), made2) && AncestorsOnly(r, made2)
    && fs3 == WithDirs(Graft(WithDirs(fs0, made), r.StageRoot(), r.staged), made2)
  }

  ghost predicate Cleaned(r: Request, fs4: Tree, made: seq<Path>, survivors: set<Path>, kept: nat, after: Tree)
    requires r.installRoot != []
  {
    && kept <= |made|
    && after == Prune(fs4, r.StageRoot(), survivors) - (set p | p in made[kept..])
    && (kept < |made| ==> Childless(Prune(fs4, r.StageRoot(), survivors), made[|made| - 1]))
  }

  lemma BrokenButSafe(r: Request, fs0: Tree, made: seq<Path>, made2: seq<Path>, fs3: Tree, fs4: Tree,
                      kept2: nat, survivors: set<Path>, kept: nat, after: Tree)
    requires Admissible(r, fs0) && Validated(r) && Staged3(r, fs0, made, made2, fs3)
    requires OldTreesKept(fs3, fs4, r.Staging(), r.token) && kept2 <= |made2|
    requires Cleaned(r, fs4 - (set p | p in made2[kept2..]), made, survivors, kept, after)
    ensures OldTreesSafe(r, fs0, after)
  {
    hide At, Graft, WithDirs, Grows, Prune, Apart, HoldsNone, ElsewhereSame;
    var fs5 := fs4 - (set p | p in made2[kept2..]);
    forall i | 0 <= i < |r.entries|
      ensures || At(after, r.entries[i].target) == At(fs0, r.entries[i].target)
              || At(after, BackupPath(r.entries[i].target, r.token)) == At(fs0, r.entries[i].target)
    {
      var t := r.entries[i].target;
      var b := BackupPath(t, r.token);
      assert r.Staging()[i].target == t;
      TargetsAreFree(r, fs0, made, i);
      TargetsAreFree(r, fs0, made2, i);
      PreparationKeeps(r, fs0, made, made2, t);
      SweepKeeps(fs4, made2, kept2, t);
      SweepKeeps(fs4, made2, kept2, b);
      CleaningKeeps(r, fs5, made, survivors, kept, t);
      CleaningKeeps(r, fs5, made, survivors, kept, b);
    }
  }

  lemma UntouchedOutsideSlots(r: Request, p: Path)
    requires r.installRoot != [] && Validated(r) && !Touched(r, p)
    ensures !InSlots(r.Staging(), r.token, p)
  {
    forall s | ValidSlot(r.Staging(), s) ensures !(Place(r.Staging(), r.token, s) <= p) {
      if s.SourceOf? {
        var source := Place(r.Staging(), r.token, s);
        assert r.StageRoot() <= source;
        PrefixTransitive(r.StageRoot(), source, p);
      }
    }
  }

  lemma RootUntouched(r: Request, fs: Tree)
    requires Admissible(r, fs) && Validated(r)
    ensures !Touched(r, r.installRoot)
  {
    StageRootApart(r, r.installRoot);
    forall i | 0 <= i < |r.entries|
      ensures !(r.entries[i].target <= r.installRoot) && !(BackupPath(r.entries[i].target, r.token) <= r.installRoot)
    {
      ShorterIsOutside(r.entries[i].target, r.installRoot, r.installRoot);
      ShorterIsOutside(BackupPath(r.entries[i].target, r.token), r.installRoot, r.installRoot);
    }
  }

  /** On success the final sweep removes nothing: the install root sits in the first candidate. */
  lemma NothingSwept(r: Request, fs4: Tree, made: seq<Path>, survivors: set<Path>, kept: nat, after: Tree)
    requires r.installRoot != [] && Cleaned(r, fs4, made, survivors, kept, after)
    requires r.installRoot in fs4 && !(r.StageRoot() <= r.installRoot)
    requires made != [] ==> made[|made| - 1] == Parent(r.installRoot)
    ensures kept == |made| && after == Prune(fs4, r.StageRoot(), survivors)
  {
    var pruned := Prune(fs4, r.StageRoot(), survivors);
    assert r.installRoot in pruned && Parent(r.installRoot) <= r.installRoot && Parent(r.installRoot) != r.installRoot;
  }

  lemma InstalledAsStaged(r: Request, fs0: Tree, made: seq<Path>, made2: seq<Path>, fs3: Tree, fs4: Tree,
                          survivors: set<Path>, kept: nat, after: Tree)
    requires Admissible(r, fs0) && Validated(r) && Staged3(r, fs0, made, made2, fs3)
    requires Switched(fs3, fs4, r.Staging(), r.token) && r.installRoot in fs3
    requires Cleaned(r, fs4, made, survivors, kept, after)
    ensures InstalledState(r, fs0, after)
  {
    hide At, Graft, WithDirs, Grows, Apart, HoldsNone, Touched, InSlots;
    var fs1 := WithDirs(fs0, made);
    var fs2 := Graft(fs1, r.StageRoot(), r.staged);
    RootUntouched(r, fs0);
    UntouchedOutsideSlots(r, r.installRoot);
    assert Same(fs3, fs4, r.installRoot);
    NotInStage(r, r.installRoot);
    NothingSwept(r, fs4, made, survivors, kept, after);
    forall i | 0 <= i < |r.entries|
      ensures At(after, r.entries[i].target) == Wanted(r, i)
    {
      TargetHoldsStage(r, fs0, made, made2, fs3, fs4, survivors, kept, after, i);
    }
    forall p | !Touched(r, p)
      ensures p in fs0 ==> p in after && after[p] == fs0[p]
      ensures p in after && p !in fs0 ==> after[p] == Dir && AncestorsOnly(r, [p])
    {
      UntouchedOutsideSlots(r, p);
      NotInStage(r, p);
      assert Same(fs3, fs4, p);
      WithDirsHas(fs2, made2, p);
      GraftHas(fs1, r.StageRoot(), r.staged, p);
      WithDirsHas(fs0, made, p);
      NewIsAbsent(fs0, fs2, made, made2, p);
    }
  }

  lemma NotInStage(r: Request, p: Path)
    requires r.installRoot != [] && !Touched(r, p)
    ensures !(r.StageRoot() <= p)
  {
  }

  lemma NewIsAbsent(fs0: Tree, fs2: Tree, made: seq<Path>, made2: seq<Path>, p: Path)
    requires Grows(fs0, made) && Grows(fs2, made2)
    ensures p in fs0 ==> p !in made
    ensures p in fs2 ==> p !in made2
  {
  }

  lemma TargetHoldsStage(r: Request, fs0: Tree, made: seq<Path>, made2: seq<Path>, fs3: Tree, fs4: Tree,
                         survivors: set<Path>, kept: nat, after: Tree, i: nat)
    requires Admissible(r, fs0) && Validated(r) && Staged3(r, fs0, made, made2, fs3)
    requires Switched(fs3, fs4, r.Staging(), r.token) && i < |r.entries|
    requires Cleaned(r, fs4, made, survivors, kept, after)
    ensures At(after, r.entries[i].target) == Wanted(r, i)
  {
    hide At, Graft, WithDirs, Apart, HoldsNone, ElsewhereSame;
    var fs1 := WithDirs(fs0, made);
    var t := r.entries[i].target;
    TargetsAreFree(r, fs0, made, i);
    CleaningKeeps(r, fs4, made, survivors, kept, t);
    assert IsSwitched(fs3, fs4, r.Staging()[i]);
    if r.entries[i].stageName.Some? {
      var name := r.entries[i].stageName.value;
      GrownIsWellFormed(fs0, made);
      GraftedAt(fs1, r.StageRoot(), r.staged, name);
      StageHoldsNoNew(r, fs0, made, made2, name);
      GrowthKeeps(Graft(fs1, r.StageRoot(), r.staged), made2, r.StageRoot() + [name]);
    }
  }

  lemma StageHoldsNoNew(r: Request, fs0: Tree, made: seq<Path>, made2: seq<Path>, name: string)
    requires Admissible(r, fs0) && Validated(r) && AncestorsOnly(r, made2)
    ensures HoldsNone(r.StageRoot() + [name], made2)
  {
    var source := r.StageRoot() + [name];
    forall c | c in made2 ensures !(source <= c) {
      ShorterIsOutside(source, c, r.installRoot);
      if !(c <= r.installRoot) {
        var j :| 0 <= j < |r.entries| && r.entries[j].target != [] && c <= Parent(r.entries[j].target);
        var u := r.entries[j].target;
        StagedSourceApart(r, name, u);
        PrefixTransitive(source, c, Parent(u));
        PrefixTransitive(source, Parent(u), u);
      }
    }
  }

  lemma ValidTargets(r: Request, fs: Tree)
    requires Admissible(r, fs)
    ensures Validated(r) <==>
      Distinct(r.Targets()) && forall t :: t in r.Targets() ==> r.installRoot <= t && t != r.installRoot
  {
    if Validated(r) {
      forall i, j | 0 <= i < j < |r.entries| ensures r.Targets()[i] != r.Targets()[j] {
        assert Apart(r.entries[i].target, r.entries[j].target);
      }
    } else {
      var i :| 0 <= i < |r.entries| && !(r.installRoot <= r.entries[i].target && r.entries[i].target != r.installRoot);
      assert r.Targets()[i] in r.Targets();
    }
  }

  lemma StagingParents(r: Request, fs0: Tree, made: seq<Path>)
    requires Admissible(r, fs0) && forall c :: c in made ==> c <= Parent(r.installRoot)
    ensures AncestorsOnly(r, made) && r.StageRoot() !in WithDirs(fs0, made)
  {
    assert Parent(r.installRoot) <= r.installRoot;
    forall c | c in made ensures c <= r.installRoot {
      PrefixTransitive(c, Parent(r.installRoot), r.installRoot);
    }
    WithDirsHas(fs0, made, r.StageRoot());
  }

  lemma TargetParents(r: Request, fs: Tree, fs': Tree, made2: seq<Path>)
    requires Prepared(fs, fs', r.installRoot, r.Targets(), made2)
    ensures AncestorsOnly(r, made2)
  {
    forall c | c in made2 && !(c <= r.installRoot)
      ensures exists i :: 0 <= i < |r.entries| && r.entries[i].target != [] && c <= Parent(r.entries[i].target)
    {
      var t :| t in r.Targets() && t != [] && c <= Parent(t);
      var i :| 0 <= i < |r.Targets()| && r.Targets()[i] == t;
    }
  }

  /** Staging puts no file in the way of the install root or of a target. */
  lemma WayStaysClear(r: Request, fs0: Tree, made: seq<Path>, x: Path)
    requires Admissible(r, fs0) && r.installRoot <= x
    ensures FileInTheWay(Graft(WithDirs(fs0, made), r.StageRoot(), r.staged), x) ==> FileInTheWay(fs0, x)
  {
    hide Graft, WithDirs;
    var fs2 := Graft(WithDirs(fs0, made), r.StageRoot(), r.staged);
    StageRootApart(r, x);
    forall p | p <= x && p in fs2 && !IsDir(fs2, p) ensures p in fs0 && !IsDir(fs0, p) {
      PrefixTransitive(r.StageRoot(), p, x);
      GraftHas(WithDirs(fs0, made), r.StageRoot(), r.staged, p);
      WithDirsHas(fs0, made, p);
    }
  }

  lemma ReadyWhenPossible(r: Request, fs0: Tree, made: seq<Path>, made2: seq<Path>, fs3: Tree)
    requires Admissible(r, fs0) && CanInstall(r, fs0) && Staged3(r, fs0, made, made2, fs3)
    requires ParentsReady(fs3, r.installRoot, r.Targets(), |r.entries|) && IsDir(fs3, r.installRoot)
    ensures Ready(fs3, r.Staging(), r.installRoot)
  {
    hide Graft, WithDirs, Grows, AncestorsOnly, FileInTheWay;
    forall i | 0 <= i < |r.entries|
      ensures r.installRoot <= Parent(r.entries[i].target) && IsDir(fs3, Parent(r.entries[i].target))
      ensures r.entries[i].stageName.Some? ==> r.StageRoot() + [r.entries[i].stageName.value] in fs3
    {
      assert r.Targets()[i] == r.entries[i].target;
      if r.entries[i].stageName.Some? {
        var source := r.StageRoot() + [r.entries[i].stageName.value];
        WithDirsHas(Graft(WithDirs(fs0, made), r.StageRoot(), r.staged), made2, source);
        GraftHas(WithDirs(fs0, made), r.StageRoot(), r.staged, source);
        assert source[|r.StageRoot()|..] == [r.entries[i].stageName.value];
      }
    }
  }

  /** What goes through had nothing standing in its way. */
  lemma PossibleWhenReady(r: Request, fs0: Tree, made: seq<Path>, made2: seq<Path>, fs3: Tree)
    requires Admissible(r, fs0) && Validated(r) && r.stagingOk && BringsSomething(r)
    requires Staged3(r, fs0, made, made2, fs3) && WellFormed(fs3)
    requires ParentsReady(fs3, r.installRoot, r.Targets(), |r.entries|) && Ready(fs3, r.Staging(), r.installRoot)
    ensures CanInstall(r, fs0)
  {
    hide Graft, WithDirs, Grows, AncestorsOnly, FileInTheWay, WellFormed;
    var k :| 0 <= k < |r.entries| && r.entries[k].stageName.Some?;
    assert EntryReady(fs3, r.Staging()[k], r.installRoot);
    DirAbove(fs3, r.installRoot, Parent(r.entries[k].target));
    NothingInTheWay(r, fs0, made, made2, fs3, r.installRoot);
    forall i | 0 <= i < |r.entries|
      ensures !FileInTheWay(fs0, Parent(r.entries[i].target))
      ensures r.entries[i].stageName.Some? ==> [r.entries[i].stageName.value] in r.staged
    {
      assert r.Targets()[i] == r.entries[i].target && r.installRoot <= Parent(r.entries[i].target);
      NothingInTheWay(r, fs0, made, made2, fs3, Parent(r.entries[i].target));
      assert EntryReady(fs3, r.Staging()[i], r.installRoot);
      if r.entries[i].stageName.Some? {
        var name := r.entries[i].stageName.value;
        var source := r.StageRoot() + [name];
        StageHoldsNoNew(r, fs0, made, made2, name);
        GrownIsWellFormed(fs0, made);
        ClosedUnderParents(WithDirs(fs0, made), r.StageRoot(), [name]);
        WithDirsHas(Graft(WithDirs(fs0, made), r.StageRoot(), r.staged), made2, source);
        GraftHas(WithDirs(fs0, made), r.StageRoot(), r.staged, source);
        assert source !in made2 && r.StageRoot() <= source;
        assert source[|r.StageRoot()|..] == [name];
      }
    }
  }

  /** Above a directory there are only directories. */
  lemma DirAbove(fs: Tree, p: Path, q: Path)
    requires WellFormed(fs) && p <= q && IsDir(fs, q)
    ensures IsDir(fs, p)
    decreases |q|
  {
    if p != q {
      assert p <= Parent(q);
      DirAbove(fs, p, Parent(q));
    }
  }

  lemma NothingInTheWay(r: Request, fs0: Tree, made: seq<Path>, made2: seq<Path>, fs3: Tree, x: Path)
    requires Admissible(r, fs0) && Staged3(r, fs0, made, made2, fs3) && WellFormed(fs3)
    requires r.installRoot <= x && IsDir(fs3, x)
    ensures !FileInTheWay(fs0, x)
  {
    hide Graft, WithDirs, Grows, AncestorsOnly, WellFormed;
    var fs1 := WithDirs(fs0, made);
    var fs2 := Graft(fs1, r.StageRoot(), r.staged);
    StageRootApart(r, x);
    forall p | p <= x && p in fs0 ensures IsDir(fs0, p) {
      DirAbove(fs3, p, x);
      PrefixTransitive(r.StageRoot(), p, x);
      NewIsAbsent(fs0, fs2, made, made2, p);
      WithDirsHas(fs0, made, p);
      GraftHas(fs1, r.StageRoot(), r.staged, p);
      WithDirsHas(fs2, made2, p);
    }
  }

  lemma AncestorClear(fs: Tree, path: Path)
    requires path != []
    ensures FileInTheWay(fs, Parent(path)) ==> FileInTheWay(fs, path)
  {
    if FileInTheWay(fs, Parent(path)) {
      var p :| p <= Parent(path) && p in fs && !IsDir(fs, p);
      PrefixTransitive(p, Parent(path), path);
    }
  }

  /** An install that can go through is ready after the preparation, and one that brings something and is
      ready then could. */
  lemma ReadyExactly(r: Request, fs0: Tree, made: seq<Path>, made2: seq<Path>, fs3: Tree)
    requires Admissible(r, fs0) && Validated(r) && r.stagingOk
    requires Staged3(r, fs0, made, made2, fs3) && WellFormed(fs3)
    requires ParentsReady(fs3, r.installRoot, r.Targets(), |r.entries|)
    requires !FileInTheWay(Graft(WithDirs(fs0, made), r.StageRoot(), r.staged), r.installRoot) ==>
      IsDir(fs3, r.installRoot)
    ensures CanInstall(r, fs0) ==> Ready(fs3, r.Staging(), r.installRoot)
    ensures BringsSomething(r) && Ready(fs3, r.Staging(), r.installRoot) ==> CanInstall(r, fs0)
  {
    hide Graft, WithDirs, Grows, Ready, BringsSomething, FileInTheWay, ParentsReady, WellFormed, AncestorsOnly;
    WayStaysClear(r, fs0, made, r.installRoot);
    if CanInstall(r, fs0) {
      ReadyWhenPossible(r, fs0, made, made2, fs3);
    }
    if BringsSomething(r) && Ready(fs3, r.Staging(), r.installRoot) {
      PossibleWhenReady(r, fs0, made, made2, fs3);
    }
  }

  lemma ClearWhenPossible(r: Request, fs0: Tree, made: seq<Path>)
    requires Admissible(r, fs0) && Validated(r)
    ensures var fs2 := Graft(WithDirs(fs0, made), r.StageRoot(), r.staged);
      CanInstall(r, fs0) ==>
        && !FileInTheWay(fs2, r.installRoot)
        && forall t :: t in r.Targets() ==> t != [] && r.installRoot <= Parent(t) && !FileInTheWay(fs2, Parent(t))
  {
    hide Graft, WithDirs, FileInTheWay, WellFormed;
    WayStaysClear(r, fs0, made, r.installRoot);
    forall t | t in r.Targets()
      ensures t != [] && r.installRoot <= Parent(t)
      ensures FileInTheWay(Graft(WithDirs(fs0, made), r.StageRoot(), r.staged), Parent(t)) ==>
        FileInTheWay(fs0, Parent(t))
      ensures CanInstall(r, fs0) ==> !FileInTheWay(fs0, Parent(t))
    {
      var i :| 0 <= i < |r.Targets()| && r.Targets()[i] == t;
      assert r.installRoot <= Parent(r.entries[i].target);
      WayStaysClear(r, fs0, made, Parent(t));
    }
  }

  /** The second half: prepare the target parents, activate, and undo what has to be undone. */
  method PrepareAndActivate(disk: FileSystem, r: Request, ghost fs0: Tree, ghost made: seq<Path>)
    returns (outcome: InstallOutcome, ghost made2: seq<Path>, ghost fs3: Tree, ghost fs4: Tree, ghost kept2: nat)
    requires Admissible(r, fs0) && Validated(r)
    requires Grows(fs0, made) && AncestorsOnly(r, made) && IsDir(WithDirs(fs0, made), Parent(r.installRoot))
    requires r.StageRoot() !in WithDirs(fs0, made) && (made != [] ==> made[|made| - 1] == Parent(r.installRoot))
    requires disk.fs == Graft(WithDirs(fs0, made), r.StageRoot(), r.staged) && r.stagingOk
    modifies disk
    ensures disk.clock >= old(disk.clock) && !outcome.SwitchedButRaised?
    ensures !outcome.Refused? ==> Staged3(r, fs0, made, made2, fs3) && r.installRoot in fs3 && kept2 <= |made2|
    ensures outcome.Installed? ==> Switched(fs3, fs4, r.Staging(), r.token) && disk.fs == fs4
    ensures outcome.Installed? && ClearsBackups(disk, old(disk.clock), disk.clock, r.Staging(), r.token) ==>
      BackupsGone(fs4, r.Staging(), r.token)
    ensures outcome.RollbackBroken? ==>
      OldTreesKept(fs3, fs4, r.Staging(), r.token) && disk.fs == fs4 - (set p | p in made2[kept2..])
    ensures outcome.Refused? ==>
      && Grows(old(disk.fs), made2) && AncestorsOnly(r, made2)
      && disk.fs == WithDirs(old(disk.fs), made2)
    ensures outcome.Refused? && disk.Removable(old(disk.clock)) ==> disk.fs == old(disk.fs)
    ensures outcome.RollbackBroken? ==> disk.Faulted(old(disk.clock))
    ensures CanInstall(r, fs0) && !disk.Faulted(old(disk.clock)) ==> outcome.Installed?
    ensures BringsSomething(r) && outcome.Installed? ==> CanInstall(r, fs0)
  {
    hide At, Graft, WithDirs, Grows, Apart, HoldsNone, ElsewhereSame, Prune, Childless, FileInTheWay, InSlots, Touched;
    hide BringsSomething, BackupsGone, ClearsBackups, OldTreesKept, Ready, CanInstall;
    ghost var fs2 := disk.fs;
    GrownIsWellFormed(fs0, made);
    assert Parent(r.StageRoot()) == Parent(r.installRoot);
    GraftIsWellFormed(WithDirs(fs0, made), r.StageRoot(), r.staged);
    made2, fs3, fs4, kept2 := [], fs2, fs2, 0;
    var prepared;
    ghost var left;
    prepared, left := PrepareTargetParents(disk, r.installRoot, r.Targets());
    if prepared.None? {
      ClearWhenPossible(r, fs0, made);
      TargetParents(r, fs2, disk.fs, left);
      NoDirs(fs2);
      return Refused, left, fs3, fs4, kept2;
    }
    made2, fs3 := prepared.value, disk.fs;
    TargetParents(r, fs2, fs3, made2);
    ReadyToActivate(r, fs0, made, made2);
    ReadyExactly(r, fs0, made, made2, fs3);
    ghost var started := disk.clock;
    var activation := ActivatePair(disk, r.Staging(), r.installRoot, r.token);
    fs4 := disk.fs;
    if ClearsBackups(disk, old(disk.clock), disk.clock, r.Staging(), r.token) {
      ClearedEarlier(disk, old(disk.clock), started, disk.clock, disk.clock, r.Staging(), r.token);
    }
    outcome := if activation.Activated? then Installed else if activation.Reraised? then Refused else RollbackBroken;
    if !activation.Activated? {
      kept2 := Sweep(disk, prepared.value);
      if activation.Reraised? {
        SweepRestores(fs2, made2, kept2, disk.fs);
        made2 := made2[..kept2];
      }
    }
  }

  lemma NoDirs(fs: Tree)
    ensures WithDirs(fs, []) == fs
  {
  }

  ghost predicate StageGone(r: Request, fs: Tree)
    requires r.installRoot != []
  {
    forall p :: r.StageRoot() <= p ==> p !in fs
  }

  lemma PrunedStageIsGone(r: Request, fs: Tree, made: seq<Path>, kept: nat)
    requires r.installRoot != [] && kept <= |made|
    ensures StageGone(r, Prune(fs, r.StageRoot(), {}) - (set p | p in made[kept..]))
  {
  }

  /** A refused install changes and removes nothing; what it may leave are entries of the temporary
      directory and empty directories leading to the install root or to a target. */
  ghost predicate RefusedState(r: Request, fs0: Tree, fs: Tree) {
    && Includes(fs, fs0)
    && forall p :: p in fs && p !in fs0 ==>
        (r.installRoot != [] && r.StageRoot() <= p) || (fs[p] == Dir && AncestorsOnly(r, [p]))
  }

  lemma GrownIsRefused(r: Request, fs0: Tree, left: seq<Path>)
    requires Grows(fs0, left) && AncestorsOnly(r, left)
    ensures RefusedState(r, fs0, WithDirs(fs0, left))
  {
    hide WithDirs, Grows;
    forall p ensures (p in WithDirs(fs0, left) <==> p in fs0 || p in left) {
      WithDirsHas(fs0, left, p);
    }
    forall p | p in fs0 ensures WithDirs(fs0, left)[p] == fs0[p] {
      WithDirsHas(fs0, left, p);
      NewIsNotOld(fs0, left, p);
    }
    forall p | p in left ensures WithDirs(fs0, left)[p] == Dir {
      WithDirsHas(fs0, left, p);
    }
  }

  lemma NewIsNotOld(fs: Tree, created: seq<Path>, p: Path)
    requires Grows(fs, created)
    ensures p in fs ==> p !in created
  {
  }

  /** The cleaning after a refusal, whatever it manages to remove. */
  lemma CleanedIsRefused(r: Request, fs0: Tree, made: seq<Path>, left: seq<Path>, survivors: set<Path>, kept: nat)
    requires WellFormed(fs0) && r.installRoot != [] && r.StageRoot() !in fs0 && kept <= |made|
    requires Grows(fs0, made) && AncestorsOnly(r, made)
    requires Grows(Graft(WithDirs(fs0, made), r.StageRoot(), r.staged), left) && AncestorsOnly(r, left)
    ensures var fs3 := WithDirs(Graft(WithDirs(fs0, made), r.StageRoot(), r.staged), left);
      RefusedState(r, fs0, Prune(fs3, r.StageRoot(), survivors) - (set p | p in made[kept..]))
  {
    hide WithDirs, Grows, Graft, WellFormed, AncestorsOnly;
    var fs1 := WithDirs(fs0, made);
    var fs2 := Graft(fs1, r.StageRoot(), r.staged);
    var fs3 := WithDirs(fs2, left);
    var pruned := Prune(fs3, r.StageRoot(), survivors);
    var after := pruned - (set p | p in made[kept..]);
    forall p | p in fs0 ensures p in after && after[p] == fs0[p] {
      PathOfRefused(r, fs0, made, left, p);
      NewIsNotOld(fs0, made, p);
    }
    forall p | p in after && p !in fs0 && !(r.StageRoot() <= p) ensures after[p] == Dir && AncestorsOnly(r, [p]) {
      PathOfRefused(r, fs0, made, left, p);
      OneAncestor(r, made, p);
      OneAncestor(r, left, p);
    }
  }

  lemma OneAncestor(r: Request, made: seq<Path>, p: Path)
    requires AncestorsOnly(r, made)
    ensures p in made ==> AncestorsOnly(r, [p])
  {
  }

  lemma PathOfRefused(r: Request, fs0: Tree, made: seq<Path>, left: seq<Path>, p: Path)
    requires WellFormed(fs0) && r.installRoot != [] && r.StageRoot() !in fs0
    requires Grows(fs0, made) && Grows(Graft(WithDirs(fs0, made), r.StageRoot(), r.staged), left)
    ensures var fs3 := WithDirs(Graft(WithDirs(fs0, made), r.StageRoot(), r.staged), left);
      && (p in fs0 ==> !(r.StageRoot() <= p) && p in fs3 && fs3[p] == fs0[p])
      && (p in fs3 && p !in fs0 && !(r.StageRoot() <= p) ==> (p in made || p in left) && fs3[p] == Dir)
  {
    hide WithDirs, Grows, Graft, WellFormed;
    var fs2 := Graft(WithDirs(fs0, made), r.StageRoot(), r.staged);
    WithDirsHas(fs0, made, p);
    NewIsNotOld(fs0, made, p);
    GraftHas(WithDirs(fs0, made), r.StageRoot(), r.staged, p);
    WithDirsHas(fs2, left, p);
    NewIsNotOld(fs2, left, p);
    if p in fs0 && r.StageRoot() <= p {
      SplitAt(r.StageRoot(), p);
    }
    if r.StageRoot() <= p {
      ClosedUnderParents(fs0, r.StageRoot(), p[|r.StageRoot()|..]);
    }
  }

  /** So every old tree is still at its target. */
  lemma RefusedKeepsOldTrees(r: Request, fs0: Tree, fs: Tree)
    requires Admissible(r, fs0) && Validated(r) && RefusedState(r, fs0, fs)
    ensures OldTreesSafe(r, fs0, fs)
  {
    hide At, AncestorsOnly, WellFormed;
    forall i | 0 <= i < |r.entries| ensures At(fs, r.entries[i].target) == At(fs0, r.entries[i].target) {
      var t := r.entries[i].target;
      forall s
        ensures t + s in fs <==> t + s in fs0
        ensures t + s in fs && t + s in fs0 ==> fs[t + s] == fs0[t + s]
      {
        if AncestorsOnly(r, [t + s]) {
          TargetsAreFree(r, fs0, [t + s], i);
          assert t + s in [t + s];
        }
        NoAncestors(r);
        TargetsAreFree(r, fs0, [], i);
        PrefixesCompare(r.StageRoot(), t, t + s);
      }
      SameTree(fs, t, fs0, t);
    }
  }

  lemma NoAncestors(r: Request)
    ensures AncestorsOnly(r, [])
  {
  }

  /** What is recorded of an install that switched: the directories it created, the file system before
      and after the switch, and when the temporary directory was removed. */
  datatype Passage = Passage(made: seq<Path>, made2: seq<Path>, staged: Tree, switched: Tree, removedAt: nat)

  ghost predicate WentThrough(r: Request, fs0: Tree, p: Passage) {
    && Validated(r) && Staged3(r, fs0, p.made, p.made2, p.staged)
    && Switched(p.staged, p.switched, r.Staging(), r.token)
  }

  /** Nothing is left at any backup path. */
  ghost predicate NoBackups(r: Request, fs: Tree) {
    forall i :: 0 <= i < |r.entries| && r.entries[i].target != [] ==>
      At(fs, BackupPath(r.entries[i].target, r.token)) == map[]
  }

  lemma BackupsStayGone(r: Request, fs0: Tree, fs4: Tree, survivors: set<Path>)
    requires Admissible(r, fs0) && Validated(r) && BackupsGone(fs4, r.Staging(), r.token)
    ensures NoBackups(r, Prune(fs4, r.StageRoot(), survivors))
  {
    hide At, WellFormed;
    NoAncestors(r);
    forall i | 0 <= i < |r.entries|
      ensures At(Prune(fs4, r.StageRoot(), survivors), BackupPath(r.entries[i].target, r.token)) == map[]
    {
      TargetsAreFree(r, fs0, [], i);
      PruneKeeps(fs4, r.StageRoot(), survivors, BackupPath(r.entries[i].target, r.token));
      assert r.Staging()[i].target == r.entries[i].target;
    }
  }

  /** The final sweep finds the install root in its first candidate. */
  lemma SweptNothing(r: Request, fs0: Tree, made: seq<Path>, made2: seq<Path>, fs3: Tree, fs4: Tree,
                     survivors: set<Path>, kept: nat, after: Tree)
    requires Admissible(r, fs0) && Validated(r) && Staged3(r, fs0, made, made2, fs3)
    requires Switched(fs3, fs4, r.Staging(), r.token) && r.installRoot in fs3
    requires Cleaned(r, fs4, made, survivors, kept, after)
    ensures after == Prune(fs4, r.StageRoot(), survivors)
  {
    hide At, Graft, WithDirs, Grows, Apart, Touched, InSlots;
    RootUntouched(r, fs0);
    UntouchedOutsideSlots(r, r.installRoot);
    assert Same(fs3, fs4, r.installRoot);
    NotInStage(r, r.installRoot);
    NothingSwept(r, fs4, made, survivors, kept, after);
  }

  /** The whole install. It has switched exactly when `passage` is there, and then ends normally exactly
      when the temporary directory could be removed. */
  method Install(disk: FileSystem, r: Request) returns (outcome: InstallOutcome, ghost passage: Option<Passage>)
    requires Admissible(r, disk.fs)
    modifies disk
    ensures disk.clock >= old(disk.clock)
    ensures passage.Some? ==>
      && WentThrough(r, old(disk.fs), passage.value) && old(disk.clock) <= passage.value.removedAt < disk.clock
      && disk.fs == Prune(passage.value.switched, r.StageRoot(),
                          if disk.stuck(passage.value.removedAt) then disk.leftovers(passage.value.removedAt) else {})
    ensures outcome.Installed? <==> passage.Some? && !disk.stuck(passage.value.removedAt)
    ensures outcome.SwitchedButRaised? <==> passage.Some? && disk.stuck(passage.value.removedAt)
    ensures passage.Some? ==> InstalledState(r, old(disk.fs), disk.fs)
    ensures passage.Some? && ClearsBackups(disk, old(disk.clock), disk.clock, r.Staging(), r.token) ==>
      NoBackups(r, disk.fs)
    ensures outcome.Installed? ==> StageGone(r, disk.fs)
    ensures outcome.Refused? ==> RefusedState(r, old(disk.fs), disk.fs)
    ensures outcome.Refused? && disk.Removable(old(disk.clock)) ==> disk.fs == old(disk.fs)
    ensures passage.None? ==> OldTreesSafe(r, old(disk.fs), disk.fs)
    ensures outcome.RollbackBroken? ==> disk.Faulted(old(disk.clock))
    ensures CanInstall(r, old(disk.fs)) && !disk.Faulted(old(disk.clock)) ==> passage.Some?
    ensures BringsSomething(r) && passage.Some? ==> CanInstall(r, old(disk.fs))
  {
    hide At, Graft, WithDirs, Grows, Apart, WellFormed, HoldsNone, ElsewhereSame, Prune, InstalledState;
    hide OldTreesSafe, Switched, OldTreesKept, Childless, FileInTheWay, RefusedState;
    hide BringsSomething, BackupsGone, ClearsBackups, NoBackups;
    ghost var fs0 := disk.fs;
    passage := None;
    ValidTargets(r, fs0);
    var valid := ValidateTargetPaths(r.installRoot, r.Targets());
    if !valid {
      NothingChanged(r, fs0);
      return Refused, None;
    }
    AncestorClear(fs0, r.installRoot);
    var parents;
    ghost var left;
    parents, left := EnsureParentDirectory(disk, Parent(r.installRoot));
    if parents.None? {
      StagingParents(r, fs0, left);
      GrownIsRefused(r, fs0, left);
      RefusedKeepsOldTrees(r, fs0, disk.fs);
      return Refused, None;
    }
    var made := parents.value;
    StagingParents(r, fs0, made);
    ghost var kept;
    ghost var survivors;
    var temporary := disk.Probe();
    if !temporary {
      kept := Sweep(disk, made);
      SweepRestores(fs0, made, kept, disk.fs);
      StagingParents(r, fs0, made[..kept]);
      GrownIsRefused(r, fs0, made[..kept]);
      RefusedKeepsOldTrees(r, fs0, disk.fs);
      return Refused, None;
    }
    disk.fs := Graft(disk.fs, r.StageRoot(), r.staged);
    NoDirs(disk.fs);
    GrowsNothing(disk.fs);
    NoAncestors(r);
    outcome := Refused;
    ghost var made2, fs3, fs4, kept2 := [], disk.fs, disk.fs, 0;
    ghost var started := disk.clock;
    if r.stagingOk {
      outcome, made2, fs3, fs4, kept2 := PrepareAndActivate(disk, r, fs0, made);
    }
    ghost var removedAt := disk.clock;
    var removed;
    removed, kept, survivors := CleanUp(disk, r, made);
    if outcome.Refused? {
      CleanedIsRefused(r, fs0, made, made2, survivors, kept);
      RefusedKeepsOldTrees(r, fs0, disk.fs);
      if disk.Removable(old(disk.clock)) {
        CleanedCompletely(r, fs0, made, kept, disk.fs);
      }
    } else if outcome.RollbackBroken? {
      BrokenButSafe(r, fs0, made, made2, fs3, fs4, kept2, survivors, kept, disk.fs);
    } else {
      passage := Some(Passage(made, made2, fs3, fs4, removedAt));
      PrunedStageIsGone(r, fs4, made, kept);
      InstalledAsStaged(r, fs0, made, made2, fs3, fs4, survivors, kept, disk.fs);
      SweptNothing(r, fs0, made, made2, fs3, fs4, survivors, kept, disk.fs);
      if ClearsBackups(disk, old(disk.clock), disk.clock, r.Staging(), r.token) {
        ClearedEarlier(disk, old(disk.clock), started, removedAt, disk.clock, r.Staging(), r.token);
        BackupsStayGone(r, fs0, fs4, survivors);
      }
      outcome := if removed then Installed else SwitchedButRaised;
    }
  }

  lemma NothingChanged(r: Request, fs: Tree)
    ensures RefusedState(r, fs, fs) && OldTreesSafe(r, fs, fs)
  {
  }
}
