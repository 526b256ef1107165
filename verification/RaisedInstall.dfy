/**
 Installs that end with an exception although every target has been replaced: the removal of the
 temporary directory fails after the switch.
 */
module RaisedInstall {
  import opened Basics
  import opened FileTree
  import opened Activation
  import opened Install

  /** Every old tree is the one wanted at its place, or there was none. */
  ghost predicate NothingToLose(r: Request, fs0: Tree) {
    forall i :: 0 <= i < |r.entries| ==>
      At(fs0, r.entries[i].target) == map[] || At(fs0, r.entries[i].target) == Wanted(r, i)
  }

  /** Once the targets are switched and the backups discarded, the old trees are safe exactly when there
      was nothing to lose. */
  lemma SafeExactly(r: Request, fs0: Tree, fs: Tree)
    requires r.installRoot != [] && Validated(r) && InstalledState(r, fs0, fs) && NoBackups(r, fs)
    ensures OldTreesSafe(r, fs0, fs) <==> NothingToLose(r, fs0)
  {
    hide At, Touched, BackupPath;
    forall i | 0 <= i < |r.entries| ensures r.entries[i].target != [] {
      assert r.installRoot <= r.entries[i].target;
    }
  }

  /** For every request that can be installed there is a run that raises and has switched: nothing fails
      but the removals. */
  method RaiseAfterSwitch(r: Request, fs: Tree, leftovers: nat -> set<Path>)
    returns (disk: FileSystem, outcome: InstallOutcome)
    requires Admissible(r, fs) && CanInstall(r, fs)
    ensures outcome.SwitchedButRaised? && InstalledState(r, fs, disk.fs)
    ensures ClearsBackups(disk, 0, disk.clock, r.Staging(), r.token) ==>
      (OldTreesSafe(r, fs, disk.fs) <==> NothingToLose(r, fs))
    ensures disk.leftovers == leftovers
  {
    assert r.installRoot != [];
    hide Admissible, InstalledState, OldTreesSafe, NothingToLose, NoBackups, ClearsBackups, WentThrough, StageGone;
    disk := new FileSystem(fs, n => false, n => true, leftovers);
    ghost var passage;
    outcome, passage := Install.Install(disk, r);
    if ClearsBackups(disk, 0, disk.clock, r.Staging(), r.token) {
      SafeExactly(r, fs, disk.fs);
    }
  }

  // ----- One such run

  /** A file at "r/a", to be replaced by another one. */
  const OLD: Tree := map[[] := Dir, ["r"] := Dir, ["r", "a"] := File("old")]
  const REQUEST := Request(["r"], [Entry(Some("x"), ["r", "a"])], "s", map[[] := Dir, ["x"] := File("new")], true, "t")

  lemma RequestIsAdmissible()
    ensures Admissible(REQUEST, OLD)
  {
    assert Parent(["r"]) == [] && Parent(["r", "a"]) == ["r"] && Parent(["x"]) == [];
    assert REQUEST.StageRoot() == ["s"];
    assert "s"[0] != "r"[0];
    assert |BackupName("a", "t")| > 1;
  }

  lemma RequestCanInstall()
    ensures CanInstall(REQUEST, OLD)
  {
    assert Parent(["r", "a"]) == ["r"];
    forall p | p <= ["r"] && p in OLD ensures IsDir(OLD, p) {
    }
  }

  lemma OldIsLost()
    ensures !NothingToLose(REQUEST, OLD)
  {
    var target, wanted := At(OLD, ["r", "a"]), At(REQUEST.staged, ["x"]);
    assert ["r", "a"] + [] == ["r", "a"] && ["x"] + [] == ["x"];
    AtHas(OLD, ["r", "a"], []);
    AtHas(REQUEST.staged, ["x"], []);
    assert target[[]] == File("old") && wanted[[]] == File("new") && "old"[0] != "new"[0];
    assert REQUEST.entries[0].target == ["r", "a"];
  }

  /** The old file is gone, the new one is in its place, and the caller sees an exception. */
  method LoseOldFile() returns (disk: FileSystem, outcome: InstallOutcome)
    ensures outcome.SwitchedButRaised? && InstalledState(REQUEST, OLD, disk.fs)
    ensures !OldTreesSafe(REQUEST, OLD, disk.fs)
  {
    RequestIsAdmissible();
    RequestCanInstall();
    OldIsLost();
    hide Admissible, CanInstall, InstalledState, OldTreesSafe, NothingToLose;
    disk, outcome := RaiseAfterSwitch(REQUEST, OLD, n => {["s"]});
    assert Parent(["r", "a"]) == ["r"];
    assert !(BackupPath(["r", "a"], "t") <= ["s"]);
    assert ClearsBackups(disk, 0, disk.clock, REQUEST.Staging(), "t");
  }
}
