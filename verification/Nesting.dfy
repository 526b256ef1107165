/**
 Activating a target that lies inside another one. The validation of targets accepts such lists, and
 the guarantees of the activation are about lists without them.
 */
module Nesting {
  import opened Basics
  import opened FileTree
  import opened Activation
  import Install

  /** Two entries of which the second has its target inside that of the first. Either may come without a
      staged tree, which takes its target away. */
  datatype Pair = Pair(x: Option<Path>, y: Option<Path>, outer: Path, inner: Path) {
    function Target(): Path { outer + inner }

    function OuterEntry(): Staged { Staged(x, outer) }

    function InnerEntry(): Staged { Staged(y, Target()) }

    function Entries(outerFirst: bool): seq<Staged> {
      if outerFirst then [OuterEntry(), InnerEntry()] else [InnerEntry(), OuterEntry()]
    }

    /** Stages apart from one another and from the targets, as the installer makes them. */
    ghost predicate Valid() {
      && outer != [] && inner != [] && x != Some([]) && y != Some([])
      && Beside(x, outer) && Beside(y, outer) && (x.Some? ==> Beside(y, x.value))
    }
  }

  /** The stage, if there is one, is apart from the place. */
  ghost predicate Beside(stage: Option<Path>, place: Path) {
    stage.Some? ==> Apart(stage.value, place)
  }

  /** What an entry brings to its target. */
  ghost function Content(fs: Tree, stage: Option<Path>): Tree {
    if stage.Some? then At(fs, stage.value) else map[]
  }

  /** The stage, if there is one, is there. */
  ghost predicate Present(fs: Tree, stage: Option<Path>) {
    stage.Some? ==> stage.value in fs
  }

  /** The names of both backups occur nowhere. */
  ghost predicate Fresh(fs: Tree, p: Pair, token: string)
    requires p.Valid()
  {
    FreshName(fs, p, BackupName(p.outer[|p.outer| - 1], token))
      && FreshName(fs, p, BackupName(p.inner[|p.inner| - 1], token))
  }

  ghost predicate FreshName(fs: Tree, p: Pair, name: string) {
    && (forall q :: q in fs ==> name !in q) && name !in p.outer && name !in p.inner
    && NotIn(name, p.x) && NotIn(name, p.y)
  }

  ghost predicate NotIn(name: string, stage: Option<Path>) {
    stage.Some? ==> name !in stage.value
  }

  /** The file system after a fault-free activation in the given order, if it goes through. */
  function Activated(fs: Tree, p: Pair, outerFirst: bool, token: string, root: Path): Option<Tree>
    requires HasTargets(p.Entries(outerFirst))
  {
    var run := SwitchRun(fs, p.Entries(outerFirst), token, root);
    if run.None? then None else Some(Discarded(run.value.fs, run.value.backups))
  }

  function OuterBackup(p: Pair, token: string): Path
    requires p.outer != []
  {
    BackupPath(p.outer, token)
  }

  function InnerBackup(p: Pair, token: string): Path
    requires p.inner != []
  {
    BackupPath(p.Target(), token)
  }

  /** The run of two entries, step by step. */
  lemma RunOfTwo(fs: Tree, a: Staged, b: Staged, token: string, root: Path)
    requires a.target != [] && b.target != [] && HasTargets([a, b])
    ensures var first := SwitchStep(fs, a, token, root);
      var second := if first.None? then None else SwitchStep(first.value, b, token, root);
      SwitchRun(fs, [a, b], token, root) ==
        if second.None? then None
        else Some(Progress(second.value, NewBackup(fs, a.target, token) + NewBackup(first.value, b.target, token)))
  {
    hide SwitchStep, NewBackup;
    assert [a, b][..1] == [a] && [a][..0] == [] && [a, b][1] == b && [a][0] == a;
    assert SwitchRun(fs, [], token, root) == Some(Progress(fs, []));
    assert [] + NewBackup(fs, a.target, token) == NewBackup(fs, a.target, token);
  }

  // ----- What each step keeps

  /** A stage that is apart from a target and does not hold its backup's name keeps its tree. */
  lemma RetireKeeps(fs: Tree, target: Path, token: string, stage: Option<Path>)
    requires target != [] && Beside(stage, target) && NotIn(BackupName(target[|target| - 1], token), stage)
    requires RetireStep(fs, target, token).Some?
    ensures var now := RetireStep(fs, target, token).value;
      Content(now, stage) == Content(fs, stage) && (Present(now, stage) <==> Present(fs, stage))
  {
    hide At, Move;
    if stage.Some? {
      BackupApart(target, token, stage.value);
      MoveKeeps(fs, target, BackupPath(target, token), stage.value);
      PresentTogether(fs, RetireStep(fs, target, token).value, stage.value, stage.value);
    }
  }

  /** Once retired, a target is not there. */
  lemma RetireEmpties(fs: Tree, target: Path, token: string)
    requires target != [] && Apart(target, BackupPath(target, token)) && RetireStep(fs, target, token).Some?
    requires target in fs || At(fs, target) == map[]
    ensures At(RetireStep(fs, target, token).value, target) == map[]
  {
    hide At, Move;
    MoveTree(fs, target, BackupPath(target, token));
  }

  lemma InstallKeeps(fs: Tree, item: Staged, stage: Option<Path>)
    requires stage.Some? ==> Beside(item.source, stage.value)
    requires Beside(stage, item.target) && InstallStep(fs, item).Some?
    ensures var now := InstallStep(fs, item).value;
      Content(now, stage) == Content(fs, stage) && (Present(now, stage) <==> Present(fs, stage))
  {
    hide At, Move;
    if stage.Some? {
      if item.source.Some? {
        MoveKeeps(fs, item.source.value, item.target, stage.value);
      }
      PresentTogether(fs, InstallStep(fs, item).value, stage.value, stage.value);
    }
  }

  lemma InstallMoves(fs: Tree, item: Staged)
    requires Beside(item.source, item.target) && InstallStep(fs, item).Some?
    requires item.source.None? ==> At(fs, item.target) == map[]
    ensures var now := InstallStep(fs, item).value;
      && Present(fs, item.source) && At(now, item.target) == Content(fs, item.source)
      && Content(now, item.source) == map[]
  {
    hide At, Move;
    if item.source.Some? {
      MoveTree(fs, item.source.value, item.target);
    }
  }

  /** A whole step brings the entry's tree to its target, and keeps the stage of the other entry. */
  lemma SwitchMoves(fs: Tree, item: Staged, token: string, root: Path, other: Option<Path>)
    requires item.target != [] && SwitchStep(fs, item, token, root).Some?
    requires Apart(item.target, BackupPath(item.target, token)) && (item.target in fs || At(fs, item.target) == map[])
    requires Beside(item.source, item.target) && NotIn(BackupName(item.target[|item.target| - 1], token), item.source)
    requires Beside(other, item.target) && NotIn(BackupName(item.target[|item.target| - 1], token), other)
    requires other.Some? ==> Beside(item.source, other.value)
    ensures var now := SwitchStep(fs, item, token, root).value;
      && Present(fs, item.source) && At(now, item.target) == Content(fs, item.source)
      && Content(now, item.source) == map[]
      && Content(now, other) == Content(fs, other) && (Present(now, other) <==> Present(fs, other))
  {
    hide At, Move, CanReplace, Content, Present;
    var f1 := RetireStep(fs, item.target, token).value;
    RetireEmpties(fs, item.target, token);
    RetireKeeps(fs, item.target, token, item.source);
    RetireKeeps(fs, item.target, token, other);
    hide RetireStep;
    InstallMoves(f1, item);
    InstallKeeps(f1, item, other);
  }

  lemma ApartBelow(a: Path, b: Path, c: Path)
    requires Apart(a, b)
    ensures Apart(a, b + c)
  {
    PrefixesCompare(a, b, b + c);
  }

  /** A subtree of a subtree. */
  lemma AtAt(fs: Tree, a: Path, b: Path)
    ensures At(At(fs, a), b) == At(fs, a + b)
  {
    hide At;
    forall s
      ensures s in At(At(fs, a), b) <==> s in At(fs, a + b)
      ensures s in At(At(fs, a), b) && s in At(fs, a + b) ==> At(At(fs, a), b)[s] == At(fs, a + b)[s]
    {
      assert a + b + s == a + (b + s);
      AtHas(At(fs, a), b, s);
      AtHas(fs, a, b + s);
      AtHas(fs, a + b, s);
    }
  }

  /** Removing a place that holds nothing here changes nothing here. */
  lemma PruneNothing(fs: Tree, root: Path, place: Path)
    requires forall s :: place + s in fs ==> !(root <= place + s)
    ensures At(Prune(fs, root, {}), place) == At(fs, place)
  {
    hide At;
    forall s
      ensures place + s in Prune(fs, root, {}) <==> place + s in fs
      ensures place + s in fs && place + s in Prune(fs, root, {}) ==> Prune(fs, root, {})[place + s] == fs[place + s]
    {
    }
    SameTree(Prune(fs, root, {}), place, fs, place);
  }

  /** A path that holds a fresh name is not in the file system. */
  lemma NameIsFresh(fs: Tree, p: Pair, name: string, q: Path)
    requires FreshName(fs, p, name) && name in q
    ensures q !in fs
  {
  }

  lemma BackupNames(p: Pair, token: string)
    requires p.Valid()
    ensures OuterBackup(p, token)[|OuterBackup(p, token)| - 1] == BackupName(p.outer[|p.outer| - 1], token)
    ensures InnerBackup(p, token) == p.outer + (Parent(p.inner) + [BackupName(p.inner[|p.inner| - 1], token)])
  {
    assert Parent(p.Target()) == p.outer + Parent(p.inner);
  }

  /** The places the run may touch, apart from the pair's. */
  lemma Places(fs: Tree, p: Pair, token: string)
    requires p.Valid() && Fresh(fs, p, token)
    ensures Beside(p.x, p.Target()) && Beside(p.y, p.Target())
    ensures Beside(p.x, OuterBackup(p, token)) && Beside(p.y, OuterBackup(p, token))
    ensures Beside(p.x, InnerBackup(p, token)) && Beside(p.y, InnerBackup(p, token))
    ensures Apart(p.outer, OuterBackup(p, token)) && Apart(p.Target(), OuterBackup(p, token))
    ensures Apart(p.Target(), InnerBackup(p, token))
    ensures BackupName(p.Target()[|p.Target()| - 1], token) !in p.Target()
    ensures NotIn(BackupName(p.outer[|p.outer| - 1], token), p.x)
    ensures NotIn(BackupName(p.outer[|p.outer| - 1], token), p.y)
    ensures NotIn(BackupName(p.Target()[|p.Target()| - 1], token), p.x)
    ensures NotIn(BackupName(p.Target()[|p.Target()| - 1], token), p.y)
  {
    forall stage | stage == p.x || stage == p.y
      ensures Beside(stage, p.Target()) && Beside(stage, OuterBackup(p, token))
      ensures Beside(stage, InnerBackup(p, token))
    {
      if stage.Some? {
        ApartBelow(stage.value, p.outer, p.inner);
        BackupApart(p.outer, token, stage.value);
        BackupApart(p.Target(), token, stage.value);
      }
    }
    BackupApart(p.outer, token, p.outer);
    BackupApart(p.Target(), token, p.Target());
    ApartBelow(OuterBackup(p, token), p.outer, p.inner);
  }

  // ----- The inner target first

  /** The outer target then takes the place of everything inside it. */
  lemma InnerFirst(fs: Tree, p: Pair, token: string, root: Path)
    requires p.Valid() && Fresh(fs, p, token) && WellFormed(fs)
    requires Activated(fs, p, false, token, root).Some?
    ensures var final := Activated(fs, p, false, token, root).value;
      && Present(fs, p.x) && Present(fs, p.y) && Content(final, p.x) == map[] == Content(final, p.y)
      && At(final, p.outer) == Content(fs, p.x) && At(final, p.Target()) == At(Content(fs, p.x), p.inner)
  {
    hide At, Move, Prune, CanReplace, WellFormed, Content, Present, RetireStep, InstallStep;
    Places(fs, p, token);
    RunOfTwo(fs, p.InnerEntry(), p.OuterEntry(), token, root);
    var f2 := SwitchStep(fs, p.InnerEntry(), token, root).value;
    var f4 := SwitchStep(f2, p.OuterEntry(), token, root).value;
    InnerSteps(fs, f2, f4, p, token, root);
    hide SwitchStep, NotIn;
    NothingFreshInside(fs, f4, p, token);
    hide Fresh;
    DiscardKeeps(f4, p, token, NewBackup(fs, p.Target(), token), NewBackup(f2, p.outer, token));
    AtAt(Activated(fs, p, false, token, root).value, p.outer, p.inner);
  }

  lemma InnerSteps(fs: Tree, f2: Tree, f4: Tree, p: Pair, token: string, root: Path)
    requires p.Valid() && Fresh(fs, p, token) && WellFormed(fs)
    requires SwitchStep(fs, p.InnerEntry(), token, root) == Some(f2)
    requires SwitchStep(f2, p.OuterEntry(), token, root) == Some(f4)
    ensures Present(fs, p.x) && Present(fs, p.y) && Content(f4, p.x) == map[] == Content(f4, p.y)
    ensures At(f4, p.outer) == Content(fs, p.x)
  {
    hide At, WellFormed, Content, Present, NotIn, RetireStep, InstallStep;
    Places(fs, p, token);
    hide Fresh;
    if p.Target() !in fs {
      NothingBelowMissing(fs, p.Target());
    }
    OuterStays(fs, RetireStep(fs, p.Target(), token).value, f2, p, token, root);
    hide SwitchStep;
    SwitchMoves(fs, p.InnerEntry(), token, root, p.x);
    SwitchMoves(f2, p.OuterEntry(), token, root, p.y);
  }

  /** The outer target is there, and stays while the inner one is switched. */
  lemma OuterStays(fs: Tree, f1: Tree, f2: Tree, p: Pair, token: string, root: Path)
    requires p.Valid() && WellFormed(fs) && TargetOk(fs, p.Target(), root)
    requires Apart(p.Target(), InnerBackup(p, token))
    requires RetireStep(fs, p.Target(), token) == Some(f1) && InstallStep(f1, p.InnerEntry()) == Some(f2)
    ensures p.outer in fs && p.outer in f2
  {
    hide Move, CanReplace;
    assert Parent(p.Target()) == p.outer + Parent(p.inner);
    ClosedUnderParents(fs, p.outer, Parent(p.inner));
    KeptOutside(fs, f1, f2, p, token, p.outer);
  }

  /** Paths that are neither in the inner target, nor in its backup, nor in its stage. */
  lemma KeptOutside(fs: Tree, f1: Tree, f2: Tree, p: Pair, token: string, q: Path)
    requires p.Valid() && !(p.Target() <= q) && !(InnerBackup(p, token) <= q) && (p.y.Some? ==> !(p.y.value <= q))
    requires RetireStep(fs, p.Target(), token) == Some(f1) && InstallStep(f1, p.InnerEntry()) == Some(f2)
    ensures Same(fs, f2, q)
  {
    hide Move, CanReplace;
    MoveElsewhere(fs, p.Target(), InnerBackup(p, token), q);
    if p.y.Some? {
      MoveElsewhere(f1, p.y.value, p.Target(), q);
    }
  }

  /** The outer target's tree, which came from the stage, holds no backup of the inner target. */
  lemma NothingFreshInside(fs: Tree, f: Tree, p: Pair, token: string)
    requires p.Valid() && Fresh(fs, p, token) && At(f, p.outer) == Content(fs, p.x)
    ensures forall s :: p.outer + s in f ==> !(InnerBackup(p, token) <= p.outer + s)
  {
    hide At;
    BackupNames(p, token);
    var name := BackupName(p.inner[|p.inner| - 1], token);
    forall s | InnerBackup(p, token) <= p.outer + s ensures p.outer + s !in f {
      var n := |InnerBackup(p, token)| - 1;
      assert InnerBackup(p, token)[n] == name && (p.outer + s)[n] == name && s[n - |p.outer|] == name;
      AtHas(f, p.outer, s);
      if p.x.Some? {
        var x := p.x.value;
        assert name in x + s by { assert (x + s)[n - |p.outer| + |x|] == name; }
        NameIsFresh(fs, p, name, x + s);
        AtHas(fs, x, s);
      }
    }
  }

  lemma PruneKeepsStage(fs: Tree, root: Path, stage: Option<Path>)
    requires Beside(stage, root)
    ensures Content(Prune(fs, root, {}), stage) == Content(fs, stage)
  {
    if stage.Some? {
      PruneKeeps(fs, root, {}, stage.value);
    }
  }

  /** Discarding the backups leaves the pair's places alone when the inner backup is not inside them. */
  lemma DiscardKeeps(f: Tree, p: Pair, token: string, first: seq<Path>, second: seq<Path>)
    requires p.Valid() && (first == [] || first == [InnerBackup(p, token)])
      && (second == [] || second == [OuterBackup(p, token)])
    requires Beside(p.x, OuterBackup(p, token)) && Beside(p.y, OuterBackup(p, token))
      && Apart(p.outer, OuterBackup(p, token))
    requires Beside(p.x, InnerBackup(p, token)) && Beside(p.y, InnerBackup(p, token))
    requires forall s :: p.outer + s in f ==> !(InnerBackup(p, token) <= p.outer + s)
    ensures var final := Discarded(f, first + second);
      && Content(final, p.x) == Content(f, p.x) && Content(final, p.y) == Content(f, p.y)
      && At(final, p.outer) == At(f, p.outer)
  {
    hide At, Prune, Content;
    var b2, b1 := InnerBackup(p, token), OuterBackup(p, token);
    var g := Discarded(f, first);
    DiscardOne(f, b2);
    PruneKeepsStage(f, b2, p.x);
    PruneKeepsStage(f, b2, p.y);
    PruneNothing(f, b2, p.outer);
    PruneKeepsStage(g, b1, p.x);
    PruneKeepsStage(g, b1, p.y);
    PruneKeeps(g, b1, {}, p.outer);
    if second == [] {
      assert first + second == first;
    } else {
      assert (first + second)[..|first|] == first;
    }
  }

  lemma DiscardOne(f: Tree, b: Path)
    ensures Discarded(f, [b]) == Prune(f, b, {}) && Discarded(f, []) == f
  {
    assert [b][..0] == [];
  }

  // ----- The outer target first

  /** Without a staged tree for the outer target the inner one has nowhere to go: the run stops. */
  lemma NowhereToGo(fs: Tree, p: Pair, token: string, root: Path)
    requires p.Valid() && Fresh(fs, p, token) && WellFormed(fs) && p.x.None?
    ensures Activated(fs, p, true, token, root).None?
  {
    hide At, Move, CanReplace, WellFormed;
    Places(fs, p, token);
    RunOfTwo(fs, p.OuterEntry(), p.InnerEntry(), token, root);
    var first := RetireStep(fs, p.outer, token);
    if p.outer !in fs {
      NothingBelowMissing(fs, p.outer);
    }
    if first.Some? {
      RetireEmpties(fs, p.outer, token);
      assert Parent(p.Target()) == p.outer + Parent(p.inner);
      AtHas(first.value, p.outer, Parent(p.inner));
    }
  }

  /** The inner target's tree replaces what the outer stage brought there. */
  lemma OuterFirst(fs: Tree, p: Pair, token: string, root: Path)
    requires p.Valid() && Fresh(fs, p, token) && WellFormed(fs)
    requires Activated(fs, p, true, token, root).Some?
    ensures var final := Activated(fs, p, true, token, root).value;
      && p.x.Some? && Present(fs, p.x) && Present(fs, p.y) && Content(final, p.x) == map[] == Content(final, p.y)
      && At(final, p.Target()) == Content(fs, p.y)
      && (At(final, p.outer) == Content(fs, p.x) <==> At(Content(fs, p.x), p.inner) == Content(fs, p.y))
  {
    hide At, Move, Prune, CanReplace, WellFormed, Content, Present;
    if p.x.None? {
      NowhereToGo(fs, p, token, root);
    }
    Places(fs, p, token);
    RunOfTwo(fs, p.OuterEntry(), p.InnerEntry(), token, root);
    var f2 := SwitchStep(fs, p.OuterEntry(), token, root).value;
    var f3 := RetireStep(f2, p.Target(), token).value;
    var f4 := InstallStep(f3, p.InnerEntry()).value;
    var final := Activated(fs, p, true, token, root).value;
    OutsideInner(fs, f2, f3, f4, final, p, token);
    OuterSteps(fs, f2, f4, p, token, root);
    hide RetireStep, InstallStep, SwitchStep, Fresh, NotIn;
    DiscardInner(f4, p, token, NewBackup(fs, p.outer, token), NewBackup(f2, p.Target(), token));
    AtAt(final, p.outer, p.inner);
    if At(Content(fs, p.x), p.inner) == Content(fs, p.y) {
      InnerAgrees(fs, f2, final, p, token);
    }
  }

  lemma OuterSteps(fs: Tree, f2: Tree, f4: Tree, p: Pair, token: string, root: Path)
    requires p.Valid() && Fresh(fs, p, token) && WellFormed(fs) && p.x.Some?
    requires SwitchStep(fs, p.OuterEntry(), token, root) == Some(f2)
    requires SwitchStep(f2, p.InnerEntry(), token, root) == Some(f4)
    ensures Present(fs, p.x) && Present(fs, p.y) && Content(f4, p.x) == map[] == Content(f4, p.y)
    ensures At(f2, p.outer) == Content(fs, p.x) && At(f4, p.Target()) == Content(fs, p.y)
  {
    hide At, WellFormed, Content, Present, SwitchStep, NotIn;
    Places(fs, p, token);
    hide Fresh;
    if p.outer !in fs {
      NothingBelowMissing(fs, p.outer);
    }
    SwitchMoves(fs, p.OuterEntry(), token, root, p.y);
    InnerAbsent(fs, f2, p);
    SwitchMoves(f2, p.InnerEntry(), token, root, p.x);
  }

  /** What the outer stage does not hold is not there. */
  lemma InnerAbsent(fs: Tree, f2: Tree, p: Pair)
    requires WellFormed(fs) && p.x.Some? && At(f2, p.outer) == Content(fs, p.x)
    ensures p.Target() in f2 || At(f2, p.Target()) == map[]
  {
    hide At;
    AtAt(f2, p.outer, p.inner);
    AtAt(fs, p.x.value, p.inner);
    AtHas(f2, p.outer, p.inner);
    AtHas(fs, p.x.value, p.inner);
    if p.x.value + p.inner !in fs {
      NothingBelowMissing(fs, p.x.value + p.inner);
    }
  }

  lemma DiscardInner(f: Tree, p: Pair, token: string, first: seq<Path>, second: seq<Path>)
    requires p.Valid() && (first == [] || first == [OuterBackup(p, token)])
      && (second == [] || second == [InnerBackup(p, token)])
    requires Beside(p.x, OuterBackup(p, token)) && Beside(p.y, OuterBackup(p, token))
      && Apart(p.Target(), OuterBackup(p, token))
    requires Beside(p.x, InnerBackup(p, token)) && Beside(p.y, InnerBackup(p, token))
      && Apart(p.Target(), InnerBackup(p, token))
    ensures var final := Discarded(f, first + second);
      && Content(final, p.x) == Content(f, p.x) && Content(final, p.y) == Content(f, p.y)
      && At(final, p.Target()) == At(f, p.Target())
  {
    hide At, Prune, Content;
    var b2, b1 := InnerBackup(p, token), OuterBackup(p, token);
    var g := Discarded(f, first);
    DiscardOne(f, b1);
    PruneKeepsStage(f, b1, p.x);
    PruneKeepsStage(f, b1, p.y);
    PruneKeeps(f, b1, {}, p.Target());
    PruneKeepsStage(g, b2, p.x);
    PruneKeepsStage(g, b2, p.y);
    PruneKeeps(g, b2, {}, p.Target());
    if second == [] {
      assert first + second == first;
    } else {
      assert (first + second)[..|first|] == first;
    }
  }

  /** Beside the inner target the outer one ends as its stage brought it. */
  ghost predicate SameBeside(f: Tree, final: Tree, p: Pair, token: string)
    requires p.inner != []
  {
    && (forall s :: !(p.inner <= s) && !(InnerBackup(p, token) <= p.outer + s) ==> Same(f, final, p.outer + s))
    && (forall s :: InnerBackup(p, token) <= p.outer + s && p.outer + s !in f ==> p.outer + s !in final)
  }

  lemma OutsideInner(fs: Tree, f2: Tree, f3: Tree, f4: Tree, final: Tree, p: Pair, token: string)
    requires p.Valid() && Apart(p.outer, OuterBackup(p, token)) && Apart(p.Target(), InnerBackup(p, token))
    requires RetireStep(f2, p.Target(), token) == Some(f3) && InstallStep(f3, p.InnerEntry()) == Some(f4)
    requires final == Discarded(f4, NewBackup(fs, p.outer, token) + NewBackup(f2, p.Target(), token))
    ensures SameBeside(f2, final, p, token)
  {
    hide Move, Prune, CanReplace, Discarded;
    DiscardTwo(f4, p, token, NewBackup(fs, p.outer, token), NewBackup(f2, p.Target(), token));
    forall s | !(p.inner <= s)
      ensures !(InnerBackup(p, token) <= p.outer + s) ==> Same(f2, final, p.outer + s)
      ensures InnerBackup(p, token) <= p.outer + s && p.outer + s !in f2 ==> p.outer + s !in final
    {
      OutsideAt(fs, f2, f3, f4, final, p, token, s);
    }
    forall s | InnerBackup(p, token) <= p.outer + s ensures !(p.inner <= s) {
      InsideInner(p, s);
      PrefixesCompare(p.Target(), InnerBackup(p, token), p.outer + s);
    }
  }

  lemma OutsideAt(fs: Tree, f2: Tree, f3: Tree, f4: Tree, final: Tree, p: Pair, token: string, s: Path)
    requires p.Valid() && Apart(p.outer, OuterBackup(p, token)) && !(p.inner <= s)
    requires RetireStep(f2, p.Target(), token) == Some(f3) && InstallStep(f3, p.InnerEntry()) == Some(f4)
    requires forall q :: !(OuterBackup(p, token) <= q) && !(InnerBackup(p, token) <= q) ==> Same(f4, final, q)
    requires forall q :: q in final ==> q in f4
    requires p.Target() in f2 ==> forall q :: InnerBackup(p, token) <= q ==> q !in final
    ensures !(InnerBackup(p, token) <= p.outer + s) ==> Same(f2, final, p.outer + s)
    ensures InnerBackup(p, token) <= p.outer + s && p.outer + s !in f2 ==> p.outer + s !in final
  {
    hide Move, CanReplace;
    var q := p.outer + s;
    InsideInner(p, s);
    PrefixesCompare(OuterBackup(p, token), p.outer, q);
    MoveElsewhere(f2, p.Target(), InnerBackup(p, token), q);
    if p.y.Some? {
      PrefixesCompare(p.y.value, p.outer, q);
      MoveElsewhere(f3, p.y.value, p.Target(), q);
    }
    assert Same(f3, f4, q);
    if !(InnerBackup(p, token) <= q) {
      assert Same(f2, f3, q) && Same(f4, final, q);
    }
  }

  lemma InsideInner(p: Pair, s: Path)
    ensures p.Target() <= p.outer + s <==> p.inner <= s
  {
    var q := p.outer + s;
    if p.Target() <= q {
      assert q[..|p.Target()|][|p.outer|..] == p.inner;
      assert s[..|p.inner|] == p.inner;
    }
    if p.inner <= s {
      assert q == p.outer + (p.inner + s[|p.inner|..]);
      assert q == p.Target() + s[|p.inner|..];
    }
  }

  /** What discarding does to a single path: nothing outside the backups, and nothing stays inside. */
  lemma {:induction false} DiscardedAt(f: Tree, backups: seq<Path>, q: Path)
    ensures q in Discarded(f, backups) ==> q in f
    ensures (forall b :: b in backups ==> !(b <= q)) ==> Same(f, Discarded(f, backups), q)
    ensures (exists b :: b in backups && b <= q) ==> q !in Discarded(f, backups)
  {
    hide Prune;
    if backups != [] {
      var front, last := backups[..|backups| - 1], backups[|backups| - 1];
      DiscardedAt(f, front, q);
      assert backups == front + [last] && last in backups;
      var before := Discarded(f, front);
      assert Discarded(f, backups) == Prune(before, last, {});
      assert !(last <= q) ==> Same(before, Prune(before, last, {}), q);
      assert forall b :: b in front ==> b in backups;
    }
  }

  lemma DiscardTwo(f: Tree, p: Pair, token: string, first: seq<Path>, second: seq<Path>)
    requires p.Valid() && (first == [] || first == [OuterBackup(p, token)])
      && (second == [] || second == [InnerBackup(p, token)])
    ensures var final := Discarded(f, first + second);
      && (forall q :: !(OuterBackup(p, token) <= q) && !(InnerBackup(p, token) <= q) ==> Same(f, final, q))
      && (forall q :: q in final ==> q in f)
      && (second != [] ==> forall q :: InnerBackup(p, token) <= q ==> q !in final)
  {
    hide Discarded, OuterBackup, InnerBackup;
    var final := Discarded(f, first + second);
    forall q
      ensures !(OuterBackup(p, token) <= q) && !(InnerBackup(p, token) <= q) ==> Same(f, final, q)
      ensures q in final ==> q in f
      ensures second != [] && InnerBackup(p, token) <= q ==> q !in final
    {
      DiscardedAt(f, first + second, q);
      assert second != [] ==> InnerBackup(p, token) in first + second;
    }
  }

  lemma InnerAgrees(fs: Tree, f2: Tree, final: Tree, p: Pair, token: string)
    requires p.Valid() && Fresh(fs, p, token) && SameBeside(f2, final, p, token)
    requires At(f2, p.outer) == Content(fs, p.x) && At(final, p.Target()) == At(Content(fs, p.x), p.inner)
    ensures At(final, p.outer) == Content(fs, p.x)
  {
    hide At;
    NothingFreshInside(fs, f2, p, token);
    forall s
      ensures p.outer + s in final <==> p.outer + s in f2
      ensures p.outer + s in final && p.outer + s in f2 ==> final[p.outer + s] == f2[p.outer + s]
    {
      if p.inner <= s {
        var t := s[|p.inner|..];
        assert s == p.inner + t && p.Target() + t == p.outer + s;
        AtHas(final, p.Target(), t);
        AtHas(Content(fs, p.x), p.inner, t);
        AtHas(f2, p.outer, s);
      }
    }
    SameTree(final, p.outer, f2, p.outer);
  }

  // ----- The exact condition

  lemma SwitchedMeans(fs: Tree, final: Tree, item: Staged)
    ensures IsSwitched(fs, final, item) <==>
      && Present(fs, item.source) && At(final, item.target) == Content(fs, item.source)
      && Content(final, item.source) == map[]
  {
  }

  /** Both entries are switched, in either order, exactly when the outer stage holds at the inner place
      what the inner entry brings: nothing, if that entry only takes its target away. */
  lemma NestedExactly(fs: Tree, p: Pair, outerFirst: bool, token: string, root: Path)
    requires p.Valid() && Fresh(fs, p, token) && WellFormed(fs)
    requires Activated(fs, p, outerFirst, token, root).Some?
    ensures var final := Activated(fs, p, outerFirst, token, root).value;
      IsSwitched(fs, final, p.OuterEntry()) && IsSwitched(fs, final, p.InnerEntry()) <==>
        At(Content(fs, p.x), p.inner) == Content(fs, p.y)
  {
    hide At, WellFormed, Activated, IsSwitched, Content, Present;
    var final := Activated(fs, p, outerFirst, token, root).value;
    SwitchedMeans(fs, final, p.OuterEntry());
    SwitchedMeans(fs, final, p.InnerEntry());
    if outerFirst {
      OuterFirst(fs, p, token, root);
    } else {
      InnerFirst(fs, p, token, root);
    }
  }

  lemma NestedIsNotSwitched(fs: Tree, p: Pair, outerFirst: bool, token: string, root: Path)
    requires p.Valid() && Fresh(fs, p, token) && WellFormed(fs)
    requires Activated(fs, p, outerFirst, token, root).Some?
    requires At(Content(fs, p.x), p.inner) != Content(fs, p.y)
    ensures !Switched(fs, Activated(fs, p, outerFirst, token, root).value, p.Entries(outerFirst), token)
  {
    NestedExactly(fs, p, outerFirst, token, root);
    hide At, WellFormed, Activated, IsSwitched, Content;
    var staged := p.Entries(outerFirst);
    assert staged[if outerFirst then 0 else 1] == p.OuterEntry()
      && staged[if outerFirst then 1 else 0] == p.InnerEntry();
  }

  /** In particular never when just one of the two has something at the inner place. */
  lemma Mismatch(fs: Tree, p: Pair)
    requires Present(fs, p.y) && (p.inner in Content(fs, p.x)) != p.y.Some?
    ensures At(Content(fs, p.x), p.inner) != Content(fs, p.y)
  {
    hide At;
    AtHas(Content(fs, p.x), p.inner, []);
    assert p.inner + [] == p.inner;
    if p.y.Some? {
      AtHas(fs, p.y.value, []);
      assert p.y.value + [] == p.y.value;
    }
  }

  // ----- Such lists are accepted and go through

  /** A list that the validation accepts and that meets every check of the switch, with a directory
      staged for the outer target that holds nothing at the inner place. */
  ghost predicate Acceptable(fs: Tree, p: Pair, token: string, root: Path) {
    && p.Valid() && Fresh(fs, p, token) && WellFormed(fs) && |p.inner| == 1 && p.x.Some? && p.y.Some?
    && Install.AcceptedTargets(root, [p.outer, p.Target()]) && Ready(fs, p.Entries(true), root)
    && p.outer in fs && IsDir(fs, p.x.value) && p.x.value + p.inner !in fs
  }

  lemma AcceptableParts(fs: Tree, p: Pair, token: string, root: Path)
    requires Acceptable(fs, p, token, root)
    ensures p.x.Some? && p.y.Some? && root <= Parent(p.outer) && IsDir(fs, Parent(p.outer)) && p.outer in fs
    ensures root <= Parent(p.Target())
    ensures Parent(p.Target()) == p.outer && IsDir(fs, p.x.value) && p.y.value in fs && p.x.value + p.inner !in fs
    ensures p.Valid() && Fresh(fs, p, token)
  {
    assert p.Entries(true)[0] == p.OuterEntry() && p.Entries(true)[1] == p.InnerEntry();
  }

  /** Without a fault the activation accepts it, and the outer target does not hold its staged tree. */
  lemma AcceptedButNotSwitched(fs: Tree, p: Pair, token: string, root: Path)
    requires Acceptable(fs, p, token, root)
    ensures Activated(fs, p, true, token, root).Some?
    ensures !Switched(fs, Activated(fs, p, true, token, root).value, p.Entries(true), token)
  {
    GoesThrough(fs, p, token, root);
    hide Activated, At;
    AcceptableParts(fs, p, token, root);
    AtHas(fs, p.x.value, p.inner);
    Mismatch(fs, p);
    NestedIsNotSwitched(fs, p, true, token, root);
  }

  lemma GoesThrough(fs: Tree, p: Pair, token: string, root: Path)
    requires Acceptable(fs, p, token, root)
    ensures Activated(fs, p, true, token, root).Some?
  {
    hide Acceptable, SwitchStep;
    AcceptableParts(fs, p, token, root);
    FirstGoes(fs, p, token, root);
    SecondGoes(SwitchStep(fs, p.OuterEntry(), token, root).value, p, token, root);
    RunOfTwo(fs, p.OuterEntry(), p.InnerEntry(), token, root);
  }

  /** A target whose parent directory is there can be retired: its backup's name is new. */
  lemma RetireGoes(fs: Tree, target: Path, token: string)
    requires target != [] && Apart(target, BackupPath(target, token)) && BackupPath(target, token) !in fs
    requires target in fs ==> IsDir(fs, Parent(target))
    ensures RetireStep(fs, target, token).Some?
    ensures target in fs ==> RetireStep(fs, target, token) == Some(Move(fs, target, BackupPath(target, token)))
  {
    hide Move;
    assert Parent(BackupPath(target, token)) == Parent(target);
  }

  lemma BackupsAreNew(fs: Tree, p: Pair, token: string)
    requires p.Valid() && Fresh(fs, p, token)
    ensures OuterBackup(p, token) !in fs && InnerBackup(p, token) !in fs
  {
    BackupNames(p, token);
    NameIsFresh(fs, p, BackupName(p.outer[|p.outer| - 1], token), OuterBackup(p, token));
    NameIsFresh(fs, p, BackupName(p.inner[|p.inner| - 1], token), InnerBackup(p, token));
  }

  lemma FirstGoes(fs: Tree, p: Pair, token: string, root: Path)
    requires p.Valid() && Fresh(fs, p, token) && root <= Parent(p.outer) && IsDir(fs, Parent(p.outer))
    requires p.x.Some? && p.y.Some? && p.outer in fs
    requires IsDir(fs, p.x.value) && p.y.value in fs && p.x.value + p.inner !in fs
    ensures var step := SwitchStep(fs, p.OuterEntry(), token, root);
      step.Some? && IsDir(step.value, p.outer) && p.Target() !in step.value && p.y.value in step.value
  {
    hide Move, At;
    Places(fs, p, token);
    BackupsAreNew(fs, p, token);
    RetireGoes(fs, p.outer, token);
    var x, b := p.x.value, OuterBackup(p, token);
    var f1 := Move(fs, p.outer, b);
    RetireKeeps(fs, p.outer, token, p.x);
    RetireKeeps(fs, p.outer, token, p.y);
    MoveElsewhere(fs, p.outer, b, Parent(p.outer));
    MoveElsewhere(fs, p.outer, b, p.outer);
    assert CanReplace(f1, x, p.outer);
    InstallMoves(f1, p.OuterEntry());
    InstallKeeps(f1, p.OuterEntry(), p.y);
    var f2 := Move(f1, x, p.outer);
    assert p.outer + [] == p.outer && x + [] == x;
    AtHas(f2, p.outer, []);
    AtHas(fs, x, []);
    AtHas(f2, p.outer, p.inner);
    AtHas(fs, x, p.inner);
  }

  lemma SecondGoes(fs: Tree, p: Pair, token: string, root: Path)
    requires p.Valid() && root <= Parent(p.Target()) && Parent(p.Target()) == p.outer && p.y.Some?
    requires IsDir(fs, p.outer) && p.Target() !in fs && p.y.value in fs
    ensures SwitchStep(fs, p.InnerEntry(), token, root).Some?
  {
    ApartBelow(p.y.value, p.outer, p.inner);
  }

  /** With the inner target first every list that meets the checks goes through. */
  lemma InnerFirstGoes(fs: Tree, p: Pair, token: string, root: Path)
    requires p.Valid() && Fresh(fs, p, token) && WellFormed(fs) && Ready(fs, p.Entries(false), root)
    ensures Activated(fs, p, false, token, root).Some?
  {
    assert p.Entries(false)[0] == p.InnerEntry() && p.Entries(false)[1] == p.OuterEntry();
    hide Move, At, CanReplace, WellFormed;
    Places(fs, p, token);
    BackupsAreNew(fs, p, token);
    RunOfTwo(fs, p.InnerEntry(), p.OuterEntry(), token, root);
    InnerGoes(fs, p, token, root);
    OuterGoes(fs, p, token, root);
  }

  lemma ParentIsDir(fs: Tree, p: Path)
    requires WellFormed(fs) && p != []
    ensures p in fs ==> IsDir(fs, Parent(p))
  {
  }

  lemma InnerGoes(fs: Tree, p: Pair, token: string, root: Path)
    requires p.Valid() && Fresh(fs, p, token) && WellFormed(fs) && EntryReady(fs, p.InnerEntry(), root)
    ensures SwitchStep(fs, p.InnerEntry(), token, root).Some?
  {
    hide Move, At, WellFormed;
    Places(fs, p, token);
    BackupsAreNew(fs, p, token);
    ParentIsDir(fs, p.Target());
    RetireGoes(fs, p.Target(), token);
    var b := InnerBackup(p, token);
    RetireKeeps(fs, p.Target(), token, p.y);
    MoveElsewhere(fs, p.Target(), b, Parent(p.Target()));
    MoveElsewhere(fs, p.Target(), b, p.Target());
  }

  lemma OuterGoes(fs: Tree, p: Pair, token: string, root: Path)
    requires p.Valid() && Fresh(fs, p, token) && WellFormed(fs) && EntryReady(fs, p.OuterEntry(), root)
    requires SwitchStep(fs, p.InnerEntry(), token, root).Some?
    ensures SwitchStep(SwitchStep(fs, p.InnerEntry(), token, root).value, p.OuterEntry(), token, root).Some?
  {
    hide Move, At, WellFormed;
    Places(fs, p, token);
    BackupsAreNew(fs, p, token);
    var f1 := RetireStep(fs, p.Target(), token).value;
    var f2 := InstallStep(f1, p.InnerEntry()).value;
    RetireKeeps(fs, p.Target(), token, p.x);
    InstallKeeps(f1, p.InnerEntry(), p.x);
    OuterStays(fs, f1, f2, p, token, root);
    ParentIsDir(fs, p.outer);
    KeptOutside(fs, f1, f2, p, token, Parent(p.outer));
    KeptOutside(fs, f1, f2, p, token, OuterBackup(p, token));
    RetireGoes(f2, p.outer, token);
    RetireKeeps(f2, p.outer, token, p.x);
    MoveElsewhere(f2, p.outer, OuterBackup(p, token), Parent(p.outer));
    MoveElsewhere(f2, p.outer, OuterBackup(p, token), p.outer);
  }

  /** Accepted lists with the inner target first always go through, and end as they should exactly when
      the two entries agree on the inner place. */
  lemma AcceptedInnerFirst(fs: Tree, p: Pair, token: string, root: Path)
    requires p.Valid() && Fresh(fs, p, token) && WellFormed(fs)
    requires Install.AcceptedTargets(root, [p.Target(), p.outer]) && Ready(fs, p.Entries(false), root)
    ensures var run := Activated(fs, p, false, token, root);
      && run.Some?
      && (IsSwitched(fs, run.value, p.OuterEntry()) && IsSwitched(fs, run.value, p.InnerEntry()) <==>
            At(Content(fs, p.x), p.inner) == Content(fs, p.y))
  {
    InnerFirstGoes(fs, p, token, root);
    NestedExactly(fs, p, false, token, root);
  }

  /** Taking the outer target away after the inner one was installed loses the inner one. */
  lemma RemovalLosesInner(fs: Tree, p: Pair, token: string, root: Path)
    requires p.Valid() && Fresh(fs, p, token) && WellFormed(fs) && p.x.None? && p.y.Some?
    requires Install.AcceptedTargets(root, [p.Target(), p.outer]) && Ready(fs, p.Entries(false), root)
    ensures var run := Activated(fs, p, false, token, root);
      run.Some? && At(run.value, p.Target()) == map[] && !IsSwitched(fs, run.value, p.InnerEntry())
  {
    hide Activated, WellFormed, Fresh, At;
    InnerFirstGoes(fs, p, token, root);
    InnerFirst(fs, p, token, root);
    EmptyTree(map[], p.inner);
    assert p.y.value + [] == p.y.value;
    AtHas(fs, p.y.value, []);
  }

  /** A disk with a directory "a" under the root "r" and two stages under "s". */
  const EXAMPLE: Tree := map[[] := Dir, ["r"] := Dir, ["r", "a"] := Dir, ["s"] := Dir, ["s", "x"] := Dir,
    ["s", "y"] := Dir]

  /** The targets "r/a" and "r/a/b" on it. */
  const EXAMPLE_PAIR := Pair(Some(["s", "x"]), Some(["s", "y"]), ["r", "a"], ["b"])

  /** So such lists exist. */
  lemma AcceptableExists()
    ensures Acceptable(EXAMPLE, EXAMPLE_PAIR, "t", ["r"])
  {
    ExampleIsWellFormed();
    ExampleIsFresh();
    hide WellFormed, Fresh;
    assert EXAMPLE_PAIR.Target() == ["r", "a", "b"] && Parent(["r", "a", "b"]) == ["r", "a"]
      && Parent(["r", "a"]) == ["r"];
  }

  /** The same targets, of which the outer one is only to be taken away. */
  const REMOVAL_PAIR := Pair(None, Some(["s", "y"]), ["r", "a"], ["b"])

  /** That list is accepted with the inner target first, so its inner tree is lost. */
  lemma RemovalIsAccepted()
    ensures var p := REMOVAL_PAIR;
      && p.Valid() && Fresh(EXAMPLE, p, "t") && WellFormed(EXAMPLE) && p.x.None? && p.y.Some?
      && Install.AcceptedTargets(["r"], [p.Target(), p.outer]) && Ready(EXAMPLE, p.Entries(false), ["r"])
  {
    ExampleIsWellFormed();
    ExampleIsFresh();
    assert REMOVAL_PAIR.Target() == ["r", "a", "b"] && Parent(["r", "a", "b"]) == ["r", "a"]
      && Parent(["r", "a"]) == ["r"];
    hide WellFormed;
  }

  lemma ExampleIsWellFormed()
    ensures WellFormed(EXAMPLE)
  {
    assert Parent(["r"]) == [] == Parent(["s"]) && Parent(["r", "a"]) == ["r"]
      && Parent(["s", "x"]) == ["s"] == Parent(["s", "y"]);
  }

  lemma ExampleIsFresh()
    ensures EXAMPLE_PAIR.Valid() && Fresh(EXAMPLE, EXAMPLE_PAIR, "t")
  {
    assert "s"[0] != "r"[0] && "x"[0] != "y"[0];
    DifferAt(["s", "x"], ["r", "a"], 0);
    DifferAt(["s", "y"], ["r", "a"], 0);
    DifferAt(["s", "x"], ["s", "y"], 1);
    assert |BackupName("a", "t")| > 1 && |BackupName("b", "t")| > 1;
  }

  lemma DifferAt(a: Path, b: Path, i: nat)
    requires i < |a| && i < |b| && a[i] != b[i]
    ensures Apart(a, b)
  {
  }
}
