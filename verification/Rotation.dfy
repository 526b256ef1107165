/**
 The rotation of delivery directories: the tested candidate in "tmp" becomes "active", and what was
 active becomes "last-version". Every step may fail, copies and deletions half way, and the object
 records every state the distribution directory goes through, so that a property of the recorded
 states is a property of stopping anywhere.
 */
module Rotation {
  import opened Basics
  import opened Ordering

  type Bytes(==,!new) = seq<int>

  /** The files of one directory. */
  type Files = map<string, Bytes>

  /** The directories of the distribution directory. */
  type Dirs = map<string, Files>

  const ACTIVE := "active"
  const LAST := "last-version"
  const TMP := "tmp"
  const README := "README.md"

  function Backup(target: string): string { "." + target + ".previous" }
  function ScratchPrefix(target: string): string { "." + target + ".next-" }

  lemma ScratchIsNotBackup(target: string, suffix: string)
    ensures ScratchPrefix(target) + suffix != Backup(target) && Backup(target) != target
  {
    assert (ScratchPrefix(target) + suffix)[|target| + 2] == 'n';
    assert Backup(target)[|target| + 2] == 'p';
  }

  /** Two states that agree on every directory outside the given names. */
  ghost predicate SameBut(a: Dirs, b: Dirs, names: set<string>) {
    forall d :: d !in names ==> (d in a <==> d in b) && (d in a ==> a[d] == b[d])
  }

  /** A state that replacing `target` by `content` may pass through: the old directory still in
      place, or moved aside whole, or the new one in place whole. */
  ghost predicate During(base: Dirs, now: Dirs, target: string, content: Files, scratch: string)
    requires target in base
  {
    || (SameBut(now, base, {scratch}) && target in now && now[target] == base[target])
    || (SameBut(now, base, {scratch, target, Backup(target)}) && target !in now
        && Backup(target) in now && now[Backup(target)] == base[target])
    || (SameBut(now, base, {scratch, target, Backup(target)}) && target in now && now[target] == content)
  }

  datatype Outcome = Done | Refused | Raised | RaisedAgain

  class Distribution {
    const files: set<string>
    const fault: nat -> bool
    const suffix: nat -> string
    const torn: nat -> Bytes

    var dirs: Dirs
    var clock: nat
    ghost var history: seq<Dirs>

    constructor (dirs: Dirs, files: set<string>, fault: nat -> bool, suffix: nat -> string, torn: nat -> Bytes)
      ensures Valid() && this.dirs == dirs && this.files == files && history == [dirs]
    {
      this.dirs, this.files, this.fault, this.suffix, this.torn := dirs, files, fault, suffix, torn;
      clock, history := 0, [dirs];
    }

    ghost predicate Valid()
      reads this
    {
      history != [] && history[|history| - 1] == dirs
    }

    ghost method Record()
      modifies this`history
      ensures history == old(history) + [dirs] && Valid()
    {
      history := history + [dirs];
    }

    /** Some step taken since `since` failed. */
    ghost predicate Faulted(since: nat)
      reads this
    {
      exists n :: since <= n < clock && fault(n)
    }

    /** A scratch name of this target is taken already. */
    ghost predicate ScratchTaken(target: string)
      reads this
    {
      exists d :: (d in dirs || d in files) && ScratchPrefix(target) <= d
    }

    /** One step of the fault schedule. */
    method Tick() returns (ok: bool)
      modifies this`clock
      ensures clock == old(clock) + 1 && ok == !fault(old(clock))
    {
      ok := !fault(clock);
      clock := clock + 1;
    }

    // ----- Primitive steps

    /** None when the check itself fails. */
    method Exists(name: string) returns (found: Option<bool>)
      modifies this`clock
      ensures clock >= old(clock) && (found.None? ==> Faulted(old(clock)))
      ensures found.Some? ==> found.value == (name in dirs)
    {
      var ok := Tick();
      found := if ok then Some(name in dirs) else None;
    }

    method MakeScratch(target: string) returns (made: Option<string>)
      requires Valid()
      modifies this
      ensures Valid() && old(history) <= history
      ensures clock >= old(clock) && (made.None? ==> Faulted(old(clock)) || old(ScratchTaken(target)))
      ensures made.None? ==> dirs == old(dirs) && history == old(history)
      ensures made.Some? ==> made.value !in old(dirs) && ScratchPrefix(target) <= made.value
      ensures made.Some? ==> dirs == old(dirs)[made.value := map[]] && history == old(history) + [dirs]
    {
      var ok := Tick();
      var name := ScratchPrefix(target) + suffix(clock);
      if !ok || name in dirs || name in files {
        return None;
      }
      dirs := dirs[name := map[]];
      Record();
      made := Some(name);
    }

    /** Copies one file; a failure may leave a torn copy behind. */
    method Copy(source: string, name: string, staged: string) returns (ok: bool)
      requires Valid() && source in dirs && name in dirs[source] && staged in dirs && source != staged
      modifies this
      ensures Valid() && OnlyTouches(old(history), history, old(dirs), staged) && staged in dirs
      ensures SameBut(dirs, old(dirs), {staged})
      ensures clock >= old(clock) && (!ok ==> Faulted(old(clock)))
      ensures ok ==> dirs == old(dirs)[staged := old(dirs[staged])[name := old(dirs[source][name])]]
      ensures ok ==> exists half :: Torn(old(dirs), half, staged, name) && history == old(history) + [half, dirs]
      ensures !ok ==>
        || (dirs == old(dirs) && history == old(history))
        || (Torn(old(dirs), dirs, staged, name) && history == old(history) + [dirs])
    {
      hide OnlyTouches;
      var content, others := dirs[source][name], dirs[staged];
      Untouched(history, dirs, staged);
      ok := Tick();
      if !ok {
        return;
      }
      ghost var base := dirs;
      dirs := dirs[staged := others[name := torn(clock)]];
      assert Torn(base, dirs, staged, name);
      OnceMore(old(history), history, old(dirs), dirs, staged);
      Record();
      ok := Tick();
      if !ok {
        return;
      }
      dirs := dirs[staged := others[name := content]];
      OnceMore(old(history), history, old(dirs), dirs, staged);
      Record();
    }

    method CopyAll(source: string, names: seq<string>, staged: string) returns (ok: bool)
      requires Valid() && source in dirs && staged in dirs && source != staged && dirs[staged] == map[]
      requires forall i :: 0 <= i < |names| ==> names[i] in dirs[source]
      modifies this
      ensures Valid() && OnlyTouches(old(history), history, old(dirs), staged) && staged in dirs
      ensures SameBut(dirs, old(dirs), {staged})
      ensures clock >= old(clock) && (!ok ==> Faulted(old(clock)))
      ensures ok ==> dirs[staged] == Named(old(dirs), source, names)
    {
      hide OnlyTouches;
      Untouched(history, dirs, staged);
      var i := 0;
      while i < |names|
        invariant clock >= old(clock)
        invariant Valid() && 0 <= i <= |names| && OnlyTouches(old(history), history, old(dirs), staged)
        invariant staged in dirs && SameBut(dirs, old(dirs), {staged})
        invariant dirs[staged] == Named(old(dirs), source, names[..i])
      {
        ghost var before, now := history, dirs;
        ok := Copy(source, names[i], staged);
        StillOnlyTouches(old(history), before, history, old(dirs), now, staged);
        if !ok {
          return;
        }
        assert names[..i + 1] == names[..i] + [names[i]];
        i := i + 1;
      }
      assert names[..i] == names;
      ok := true;
    }

    /** Renaming a directory to a free name is atomic. */
    method Rename(from: string, to: string) returns (ok: bool)
      requires Valid() && from in dirs && to !in dirs
      modifies this
      ensures Valid() && clock >= old(clock) && (!ok ==> Faulted(old(clock)))
      ensures ok ==> from !in dirs && to in dirs && dirs[to] == old(dirs[from]) && history == old(history) + [dirs]
      ensures SameBut(dirs, old(dirs), {from, to})
      ensures !ok ==> dirs == old(dirs) && history == old(history)
    {
      ok := Tick();
      if ok {
        dirs := (dirs - {from})[to := dirs[from]];
        Record();
      }
    }

    /** Deletes file by file, then the directory; a failure leaves what is not yet deleted. */
    method RemoveTree(name: string) returns (ok: bool)
      requires Valid() && name in dirs
      modifies this
      ensures Valid() && OnlyTouches(old(history), history, old(dirs), name) && SameBut(dirs, old(dirs), {name})
      ensures ok <==> name !in dirs
      ensures clock >= old(clock) && (!ok ==> Faulted(old(clock)))
    {
      while dirs[name] != map[]
        invariant clock >= old(clock)
        invariant Valid() && name in dirs && OnlyTouches(old(history), history, old(dirs), name)
        invariant SameBut(dirs, old(dirs), {name})
        decreases |dirs[name]|
      {
        hide OnlyTouches;
        ok := Tick();
        if !ok {
          return;
        }
        var file :| file in dirs[name];
        var left := dirs[name] - {file};
        assert left.Keys == dirs[name].Keys - {file};
        dirs := dirs[name := left];
        OnceMore(old(history), history, old(dirs), dirs, name);
        Record();
      }
      hide OnlyTouches;
      ok := Tick();
      if ok {
        dirs := dirs - {name};
        OnceMore(old(history), history, old(dirs), dirs, name);
        Record();
      }
    }

    // ----- Replacing one directory

    /** The body of the try: copy, move the old directory aside, move the new one in, delete the old. */
    method Switch(target: string, source: string, names: seq<string>, scratch: string, ghost base: Dirs)
      returns (ok: bool)
      requires Valid() && dirs == base[scratch := map[]] && Replaceable(base, target, source, names, scratch)
      modifies this
      ensures Valid() && AllDuring(old(history), history, base, target, Named(base, source, names), scratch)
      ensures clock >= old(clock) && (!ok ==> Faulted(old(clock)) || Backup(target) in base)
      ensures ok ==> dirs == base[target := Named(base, source, names)] && Backup(target) !in base
      ensures !ok ==> Interrupted(base, dirs, target, Named(base, source, names), scratch)
    {
      hide OnlyTouches, AllDuring, During, Interrupted;
      ghost var content := Named(base, source, names);
      NothingYet(history, base, target, content, scratch);
      ok := CopyAll(source, names, scratch);
      Still(base, old(dirs), target, content, scratch);
      ScratchIsFree(old(history), old(history), history, base, old(dirs), target, content, scratch);
      CopiesOnly(base, dirs, target, content, scratch);
      if !ok {
        return;
      }
      var stale := Exists(Backup(target));
      if stale != Some(false) {
        return false;
      }
      ok := MoveIn(target, scratch, base, content, old(history));
    }

    /** Move the old directory aside, move the new one in, delete the old. */
    method MoveIn(target: string, scratch: string, ghost base: Dirs, ghost content: Files, ghost start: seq<Dirs>)
      returns (ok: bool)
      requires Valid() && NotMoved(base, dirs, scratch) && dirs[scratch] == content
      requires Fresh(base, target, scratch) && Backup(target) !in base
      requires AllDuring(start, history, base, target, content, scratch)
      modifies this
      ensures Valid() && AllDuring(start, history, base, target, content, scratch)
      ensures clock >= old(clock) && (!ok ==> Faulted(old(clock)))
      ensures ok ==> dirs == base[target := content]
      ensures !ok ==> Interrupted(base, dirs, target, content, scratch)
    {
      hide OnlyTouches, AllDuring, During, Interrupted;
      CopiesOnly(base, dirs, target, content, scratch);
      ok := Rename(target, Backup(target));
      if !ok {
        return;
      }
      Moved(start, history[..|history| - 1], base, dirs, target, content, scratch);
      MovedOnce(base, dirs, target, content, scratch);
      ok := Rename(scratch, target);
      if !ok {
        return;
      }
      Moved(start, history[..|history| - 1], base, dirs, target, content, scratch);
      ghost var before, switched := history, dirs;
      ok := RemoveTree(Backup(target));
      NewInPlace(start, before, history, base, switched, target, content, scratch);
      MovedTwice(base, dirs, target, content, scratch);
      Landed(base, dirs, target, content);
    }

    /** The except clause: put the old directory back if nothing stands in its place. */
    method Recover(target: string, scratch: string, ghost base: Dirs, ghost content: Files, ghost start: seq<Dirs>)
      returns (handled: bool)
      requires Valid() && Fresh(base, target, scratch) && Interrupted(base, dirs, target, content, scratch)
      requires AllDuring(start, history, base, target, content, scratch)
      modifies this
      ensures Valid() && AllDuring(start, history, base, target, content, scratch)
      ensures Interrupted(base, dirs, target, content, scratch) && |old(history)| <= |history|
      ensures clock >= old(clock) && (!handled ==> Faulted(old(clock)))
      ensures handled ==> NotMoved(base, dirs, scratch) || MovedIn(base, dirs, target, content)
    {
      hide AllDuring, During;
      var standing := Exists(target);
      if standing.None? {
        return false;
      }
      if !standing.value {
        var aside := Exists(Backup(target));
        if aside.None? {
          return false;
        }
        if aside.value {
          handled := Rename(Backup(target), target);
          if handled {
            Restored(start, history[..|history| - 1], base, dirs, target, content, scratch);
          }
          return;
        }
      }
      handled := true;
    }

    /** The finally clause: remove what is left of the scratch directory. */
    method CleanUp(target: string, scratch: string, ghost base: Dirs, ghost content: Files, ghost start: seq<Dirs>)
      returns (ok: bool)
      requires Valid() && Fresh(base, target, scratch) && AllDuring(start, history, base, target, content, scratch)
        && |start| < |history|
      modifies this
      ensures Valid() && AllDuring(start, history, base, target, content, scratch)
      ensures SameBut(dirs, old(dirs), {scratch}) && (ok ==> scratch !in dirs)
      ensures clock >= old(clock) && (!ok ==> Faulted(old(clock)))
    {
      hide AllDuring, OnlyTouches, During;
      ok := true;
      var left := Exists(scratch);
      if left != Some(false) {
        if left.None? {
          return false;
        }
        ghost var before, now := history, dirs;
        ok := RemoveTree(scratch);
        LastIsDuring(start, before, base, target, content, scratch);
        ScratchIsFree(start, before, history, base, now, target, content, scratch);
      }
    }

    /** Replaces the archives of one directory by copies of the named files of another. */
    method ReplaceArchives(target: string, source: string, names: seq<string>)
      returns (outcome: Outcome, ghost scratch: string)
      requires Valid() && target in dirs && source in dirs && source != target
      requires forall i :: 0 <= i < |names| ==> names[i] in dirs[source]
      modifies this
      ensures Valid() && outcome != Refused
      ensures AllDuring(old(history), history, old(dirs), target, Named(old(dirs), source, names), scratch)
      ensures |old(history)| < |history| ==> Fresh(old(dirs), target, scratch)
      ensures clock >= old(clock)
      ensures outcome == Done ==> dirs == old(dirs)[target := Named(old(dirs), source, names)]
      ensures outcome == Done ==> Backup(target) !in old(dirs)
      ensures outcome != Done ==> Faulted(old(clock)) || Backup(target) in old(dirs) || old(ScratchTaken(target))
      ensures outcome == RaisedAgain ==> Faulted(old(clock))
      ensures outcome == Raised ==>
        dirs == old(dirs) || MovedIn(old(dirs), dirs, target, Named(old(dirs), source, names))
    {
      hide AllDuring, OnlyTouches, During, ScratchTaken, Named, Torn;
      ghost var base, content, start := dirs, Named(dirs, source, names), history;
      scratch := "";
      NothingYet(history, base, target, content, scratch);
      var made := MakeScratch(target);
      if made.None? {
        return Raised, scratch;
      }
      scratch := made.value;
      NothingYet(start, base, target, content, scratch);
      Restored(start, start, base, dirs, target, content, scratch);
      ScratchIsNotBackup(target, scratch[|ScratchPrefix(target)|..]);
      ghost var begun := history;
      var ok := Switch(target, source, names, made.value, base);
      DuringBoth(start, begun, history, base, target, content, scratch);
      var handled := true;
      if !ok {
        handled := Recover(target, made.value, base, content, start);
      }
      var cleaned := CleanUp(target, made.value, base, content, start);
      outcome := if !handled || !cleaned then RaisedAgain else if ok then Done else Raised;
    }

    // ----- The whole promotion

    /** The checks before anything moves; `candidateOk` and `activeOk` stand for the archive checks. */
    method Check(candidateOk: Files -> bool, activeOk: Files -> bool) returns (accepted: bool)
      ensures accepted <==> Promotable(dirs, files, candidateOk, activeOk)
    {
      if !(dirs.Keys <= DIST_ENTRIES) || !(files <= DIST_ENTRIES) || README !in files {
        return false;
      }
      if ACTIVE !in dirs || LAST !in dirs || TMP !in dirs {
        return false;
      }
      if dirs[TMP] == map[] || !AllZips(dirs[TMP]) || !candidateOk(dirs[TMP]) {
        return false;
      }
      accepted := AllZips(dirs[ACTIVE]) && (dirs[ACTIVE] == map[] || activeOk(dirs[ACTIVE]));
    }

    /** Promotes the candidate in "tmp". */
    method Promote(candidateOk: Files -> bool, activeOk: Files -> bool) returns (outcome: Outcome)
      requires Valid()
      modifies this
      ensures Valid() && old(history) <= history
      ensures outcome == Refused <==> !Promotable(old(dirs), files, candidateOk, activeOk)
      ensures outcome == Refused ==> dirs == old(dirs) && history == old(history)
      ensures Promotable(old(dirs), files, candidateOk, activeOk) ==> AllSafe(old(dirs), old(history), history)
      ensures outcome == Done ==> Promotable(old(dirs), files, candidateOk, activeOk) && dirs == Promoted(old(dirs))
      ensures outcome == Raised ==> ACTIVE in dirs && LAST in dirs && TMP in dirs
      ensures clock >= old(clock)
      ensures Promotable(old(dirs), files, candidateOk, activeOk) && !Faulted(old(clock)) ==> outcome == Done
    {
      hide Safe;
      var accepted := Check(candidateOk, activeOk);
      if !accepted {
        return Refused;
      }
      outcome := Rotate();
      if outcome == Done {
        outcome := Activate(old(dirs), old(history));
      }
    }

    lemma NothingTaken(target: string)
      requires Clean(dirs, files)
      ensures Backup(target) !in dirs && !ScratchTaken(target)
    {
      forall d | d in dirs || d in files ensures !(ScratchPrefix(target) <= d) {
        CleanIsFree(dirs, files, target, d);
      }
      CleanIsFree(dirs, files, target, "");
    }

    /** What was active becomes the last version, if there was anything. */
    method Rotate() returns (outcome: Outcome)
      requires Valid() && ACTIVE in dirs && LAST in dirs && TMP in dirs
      modifies this
      ensures Valid() && AllSafe(old(dirs), old(history), history) && outcome != Refused
      ensures clock >= old(clock) && (Clean(old(dirs), files) && !Faulted(old(clock)) ==> outcome == Done)
      ensures outcome == Done ==> dirs == Rotated(old(dirs))
      ensures outcome == Raised ==> ACTIVE in dirs && LAST in dirs && TMP in dirs
    {
      hide AllDuring, During, Safe, MovedIn;
      ghost var base, start, scratch := dirs, history, "";
      var active := SortedStrings(dirs[ACTIVE].Keys);
      if active == [] {
        assert dirs[ACTIVE] == map[] by { assert |dirs[ACTIVE].Keys| == 0; }
        return Done;
      }
      assert dirs[ACTIVE] != map[] by { assert active[0] in active; }
      WholeDirectory(dirs, ACTIVE, active);
      if Clean(dirs, files) {
        NothingTaken(LAST);
      }
      outcome, scratch := ReplaceArchives(LAST, ACTIVE, active);
      FirstStepSafe(base, start, history, scratch);
      NothingMissing(base, dirs, LAST, base[ACTIVE]);
    }

    /** The candidate becomes active, and "tmp" is emptied. */
    method Activate(ghost base: Dirs, ghost start: seq<Dirs>) returns (outcome: Outcome)
      requires Valid() && ACTIVE in base && LAST in base && TMP in base && dirs == Rotated(base)
      requires AllSafe(base, start, history)
      modifies this
      ensures Valid() && AllSafe(base, start, history) && outcome != Refused
      ensures clock >= old(clock) && (Clean(base, files) && !Faulted(old(clock)) ==> outcome == Done)
      ensures outcome == Done ==> dirs == Promoted(base)
      ensures outcome == Raised ==> ACTIVE in dirs && LAST in dirs && TMP in dirs
    {
      hide AllDuring, During, AllSafe, MovedIn, ScratchTaken, Clean, Backup;
      CleanLater(base, files);
      ghost var before, scratch := history, "";
      var staged := SortedStrings(dirs[TMP].Keys);
      WholeDirectory(dirs, TMP, staged);
      if Clean(base, files) {
        NothingTaken(ACTIVE);
      }
      outcome, scratch := ReplaceArchives(ACTIVE, TMP, staged);
      SecondStepSafe(base, start, before, history, scratch);
      NothingMissing(Rotated(base), dirs, ACTIVE, base[TMP]);
      if outcome != Done {
        return;
      }
      before := history;
      if Clean(base, files) {
        NothingTaken(TMP);
      }
      outcome, scratch := ReplaceArchives(TMP, LAST, []);
      ThirdStepSafe(base, start, before, history, scratch);
      NothingMissing(Rotated(base)[ACTIVE := base[TMP]], dirs, TMP, map[]);
    }
  }

  /** A file of that name is there with any content, and the rest is as before. */
  ghost predicate Torn(base: Dirs, half: Dirs, staged: string, name: string) {
    && staged in base && staged in half && SameBut(half, base, {staged})
    && name in half[staged] && half[staged] - {name} == base[staged] - {name}
  }

  /** The files of a directory with the given names. */
  function Named(dirs: Dirs, source: string, names: seq<string>): Files
    requires source in dirs || names == []
  {
    map n | n in names && n in dirs[source] :: dirs[source][n]
  }

  ghost predicate Fresh(base: Dirs, target: string, scratch: string) {
    target in base && scratch !in base && scratch != Backup(target) && target != Backup(target)
  }

  /** What the callers provide: existing directories, existing files and a scratch name of this target. */
  ghost predicate Replaceable(base: Dirs, target: string, source: string, names: seq<string>, scratch: string) {
    && Fresh(base, target, scratch) && source != target && source in base
    && forall i :: 0 <= i < |names| ==> names[i] in base[source]
  }

  /** Every state recorded since `before` is one that the replacement may pass through. */
  ghost predicate AllDuring(before: seq<Dirs>, after: seq<Dirs>, base: Dirs, target: string, content: Files,
                            scratch: string)
    requires target in base
  {
    before <= after && forall k :: |before| <= k < |after| ==> During(base, after[k], target, content, scratch)
  }

  lemma Untouched(now: seq<Dirs>, base: Dirs, name: string)
    ensures OnlyTouches(now, now, base, name)
  {
  }

  lemma StillOnlyTouches(start: seq<Dirs>, before: seq<Dirs>, after: seq<Dirs>, base: Dirs, now: Dirs, name: string)
    requires OnlyTouches(start, before, base, name) && OnlyTouches(before, after, now, name)
      && SameBut(now, base, {name})
    ensures OnlyTouches(start, after, base, name)
  {
    forall k | |start| <= k < |after| ensures SameBut(after[k], base, {name}) {
      if k < |before| {
        assert after[k] == before[k];
      } else {
        assert SameBut(after[k], now, {name});
      }
    }
  }

  lemma NothingYet(now: seq<Dirs>, base: Dirs, target: string, content: Files, scratch: string)
    requires target in base
    ensures AllDuring(now, now, base, target, content, scratch)
  {
  }

  lemma OnceMore(before: seq<Dirs>, after: seq<Dirs>, base: Dirs, now: Dirs, name: string)
    requires OnlyTouches(before, after, base, name) && SameBut(now, base, {name})
    ensures OnlyTouches(before, after + [now], base, name)
  {
  }

  lemma Moved(start: seq<Dirs>, before: seq<Dirs>, base: Dirs, now: Dirs, target: string, content: Files,
              scratch: string)
    requires target in base && AllDuring(start, before, base, target, content, scratch)
    requires SameBut(now, base, {scratch, target, Backup(target)})
    requires if target in now then now[target] == content
      else Backup(target) in now && now[Backup(target)] == base[target]
    ensures AllDuring(start, before + [now], base, target, content, scratch)
  {
  }

  lemma Still(base: Dirs, now: Dirs, target: string, content: Files, scratch: string)
    requires target in base && target != scratch && SameBut(now, base, {scratch})
    ensures During(base, now, target, content, scratch)
  {
  }

  lemma Restored(start: seq<Dirs>, before: seq<Dirs>, base: Dirs, now: Dirs, target: string, content: Files,
                 scratch: string)
    requires target in base && AllDuring(start, before, base, target, content, scratch)
    requires SameBut(now, base, {scratch}) && target != scratch
    ensures AllDuring(start, before + [now], base, target, content, scratch)
  {
  }

  lemma LastIsDuring(start: seq<Dirs>, after: seq<Dirs>, base: Dirs, target: string, content: Files, scratch: string)
    requires target in base && AllDuring(start, after, base, target, content, scratch) && |start| < |after|
    ensures During(base, after[|after| - 1], target, content, scratch)
  {
  }

  /** Whatever happens in the scratch directory does not matter. */
  lemma ScratchIsFree(start: seq<Dirs>, before: seq<Dirs>, after: seq<Dirs>, base: Dirs, now: Dirs, target: string,
                      content: Files, scratch: string)
    requires Fresh(base, target, scratch) && During(base, now, target, content, scratch)
    requires AllDuring(start, before, base, target, content, scratch) && OnlyTouches(before, after, now, scratch)
    ensures AllDuring(start, after, base, target, content, scratch)
  {
    forall k | |start| <= k < |after| ensures During(base, after[k], target, content, scratch) {
      if k < |before| {
        assert after[k] == before[k];
      } else {
        assert SameBut(after[k], now, {scratch});
      }
    }
  }

  lemma DuringBoth(start: seq<Dirs>, before: seq<Dirs>, after: seq<Dirs>, base: Dirs, target: string, content: Files,
                   scratch: string)
    requires target in base && AllDuring(start, before, base, target, content, scratch)
      && AllDuring(before, after, base, target, content, scratch)
    ensures AllDuring(start, after, base, target, content, scratch) && |before| <= |after|
  {
    forall k | |start| <= k < |after| ensures During(base, after[k], target, content, scratch) {
      if k < |before| {
        assert after[k] == before[k];
      }
    }
  }

  lemma NewInPlace(start: seq<Dirs>, before: seq<Dirs>, after: seq<Dirs>, base: Dirs, now: Dirs, target: string,
                   content: Files, scratch: string)
    requires target in base && scratch != target && target != Backup(target)
    requires AllDuring(start, before, base, target, content, scratch) && OnlyTouches(before, after, now, Backup(target))
    requires SameBut(now, base, {scratch, target, Backup(target)}) && target in now && now[target] == content
    ensures AllDuring(start, after, base, target, content, scratch)
  {
    forall k | |start| <= k < |after| ensures During(base, after[k], target, content, scratch) {
      if k < |before| {
        assert after[k] == before[k];
      } else {
        assert SameBut(after[k], now, {Backup(target)});
        assert SameBut(after[k], base, {scratch, target, Backup(target)});
      }
    }
  }

  /** The states in which the body of the try can stop. */
  ghost predicate Interrupted(base: Dirs, now: Dirs, target: string, content: Files, scratch: string)
    requires target in base
  {
    NotMoved(base, now, scratch) || MovedAside(base, now, target, content, scratch)
      || MovedIn(base, now, target, content)
  }

  ghost predicate NotMoved(base: Dirs, now: Dirs, scratch: string) {
    SameBut(now, base, {scratch}) && scratch in now
  }

  ghost predicate MovedAside(base: Dirs, now: Dirs, target: string, content: Files, scratch: string)
    requires target in base
  {
    && SameBut(now, base, {scratch, target, Backup(target)}) && Backup(target) !in base && target !in now
    && scratch in now && now[scratch] == content && Backup(target) in now && now[Backup(target)] == base[target]
  }

  ghost predicate MovedIn(base: Dirs, now: Dirs, target: string, content: Files) {
    && SameBut(now, base, {target, Backup(target)}) && Backup(target) !in base
    && target in now && now[target] == content && Backup(target) in now
  }

  lemma CopiesOnly(base: Dirs, now: Dirs, target: string, content: Files, scratch: string)
    requires target in base && NotMoved(base, now, scratch)
    ensures Interrupted(base, now, target, content, scratch)
  {
  }

  lemma MovedOnce(base: Dirs, now: Dirs, target: string, content: Files, scratch: string)
    requires target in base && MovedAside(base, now, target, content, scratch)
    ensures Interrupted(base, now, target, content, scratch)
  {
  }

  lemma Landed(base: Dirs, now: Dirs, target: string, content: Files)
    requires SameBut(now, base, {target, Backup(target)}) && target in now && now[target] == content
      && target != Backup(target)
    ensures Backup(target) !in now && Backup(target) !in base ==> now == base[target := content]
  {
  }

  lemma MovedTwice(base: Dirs, now: Dirs, target: string, content: Files, scratch: string)
    requires target in base
    ensures MovedIn(base, now, target, content) ==> Interrupted(base, now, target, content, scratch)
  {
  }

  /** The states recorded since `before` differ from `base` in one directory only. */
  ghost predicate OnlyTouches(before: seq<Dirs>, after: seq<Dirs>, base: Dirs, name: string) {
    before <= after && forall k :: |before| <= k < |after| ==> SameBut(after[k], base, {name})
  }

  // ----- Promotion

  const DIST_ENTRIES := {README, ACTIVE, LAST, TMP}

  /** Where a complete set of archives may be found. */
  const HOMES := {ACTIVE, LAST, TMP, Backup(ACTIVE), Backup(LAST), Backup(TMP)}

  /** Nothing but the known entries. */
  ghost predicate Clean(dirs: Dirs, files: set<string>) {
    dirs.Keys <= DIST_ENTRIES && files <= DIST_ENTRIES
  }

  lemma CleanLater(base: Dirs, files: set<string>)
    requires ACTIVE in base && LAST in base && TMP in base
    ensures Clean(base, files) ==>
      Clean(Rotated(base), files) && Clean(Rotated(base)[ACTIVE := base[TMP]], files)
  {
    assert Rotated(base).Keys == base.Keys && Rotated(base)[ACTIVE := base[TMP]].Keys == base.Keys;
  }

  /** In a clean layout no name of a backup or of a scratch directory is taken. */
  lemma CleanIsFree(dirs: Dirs, files: set<string>, target: string, d: string)
    requires Clean(dirs, files)
    ensures Backup(target) !in dirs
    ensures d in dirs || d in files ==> !(ScratchPrefix(target) <= d)
  {
    assert Backup(target)[0] == '.' && ScratchPrefix(target)[0] == '.';
    assert ScratchPrefix(target) <= d ==> d[0] == '.';
  }

  predicate IsZip(name: string) { |name| > 4 && name[|name| - 4..] == ".zip" }

  /** A name with something in front of the suffix. */
  lemma IsZipExactly(name: string)
    ensures IsZip(name) <==> exists stem :: stem != "" && name == stem + ".zip"
  {
    if IsZip(name) {
      assert name == name[..|name| - 4] + ".zip";
    }
  }

  predicate AllZips(f: Files) { forall n :: n in f.Keys ==> IsZip(n) }

  /** A clean distribution directory with a valid candidate, and nothing invalid active. */
  ghost predicate Promotable(dirs: Dirs, files: set<string>, candidateOk: Files -> bool, activeOk: Files -> bool) {
    && dirs.Keys <= DIST_ENTRIES && files <= DIST_ENTRIES && README in files
    && ACTIVE in dirs && LAST in dirs && TMP in dirs
    && dirs[TMP] != map[] && AllZips(dirs[TMP]) && candidateOk(dirs[TMP])
    && AllZips(dirs[ACTIVE]) && (dirs[ACTIVE] != map[] ==> activeOk(dirs[ACTIVE]))
  }

  function Promoted(base: Dirs): Dirs
    requires ACTIVE in base && TMP in base
  {
    Rotated(base)[ACTIVE := base[TMP]][TMP := map[]]
  }

  function Rotated(base: Dirs): Dirs
    requires ACTIVE in base
  {
    if base[ACTIVE] != map[] then base[LAST := base[ACTIVE]] else base
  }

  ghost predicate Held(now: Dirs, content: Files) {
    exists d :: d in HOMES && d in now && now[d] == content
  }

  /** Stopping here loses neither the candidate nor the archives that were active, and no directory
      holds a mixture of old and new archives. */
  ghost predicate Safe(base: Dirs, now: Dirs)
    requires ACTIVE in base && LAST in base && TMP in base
  {
    && Held(now, base[TMP]) && (base[ACTIVE] != map[] ==> Held(now, base[ACTIVE]))
    && (ACTIVE in now ==> now[ACTIVE] == base[ACTIVE] || now[ACTIVE] == base[TMP])
    && (LAST in now ==> now[LAST] == base[LAST] || now[LAST] == base[ACTIVE])
    && (TMP in now ==> now[TMP] == base[TMP] || now[TMP] == map[])
  }

  ghost predicate AllSafe(base: Dirs, before: seq<Dirs>, after: seq<Dirs>)
    requires ACTIVE in base && LAST in base && TMP in base
  {
    before <= after && forall k :: |before| <= k < |after| ==> Safe(base, after[k])
  }

  lemma WholeDirectory(dirs: Dirs, d: string, names: seq<string>)
    requires d in dirs && forall n :: n in names <==> n in dirs[d].Keys
    ensures Named(dirs, d, names) == dirs[d] && forall i :: 0 <= i < |names| ==> names[i] in dirs[d]
  {
    assert forall i :: 0 <= i < |names| ==> names[i] in names;
  }

  lemma SafeWhileRotating(base: Dirs, now: Dirs, scratch: string)
    requires ACTIVE in base && LAST in base && TMP in base && scratch !in base
    requires During(base, now, LAST, base[ACTIVE], scratch)
    ensures Safe(base, now)
  {
    assert now[ACTIVE] == base[ACTIVE] && now[TMP] == base[TMP];
  }

  lemma SafeWhileActivating(base: Dirs, now: Dirs, scratch: string)
    requires ACTIVE in base && LAST in base && TMP in base && scratch !in base
    requires During(Rotated(base), now, ACTIVE, base[TMP], scratch)
    ensures Safe(base, now)
  {
    assert now[LAST] == Rotated(base)[LAST] && now[TMP] == base[TMP];
  }

  lemma SafeWhileClearing(base: Dirs, now: Dirs, scratch: string)
    requires ACTIVE in base && LAST in base && TMP in base && scratch !in base
    requires During(Rotated(base)[ACTIVE := base[TMP]], now, TMP, map[], scratch)
    ensures Safe(base, now)
  {
    assert now[LAST] == Rotated(base)[LAST] && now[ACTIVE] == base[TMP];
  }

  lemma FirstStepSafe(base: Dirs, before: seq<Dirs>, after: seq<Dirs>, scratch: string)
    requires ACTIVE in base && LAST in base && TMP in base
    requires AllDuring(before, after, base, LAST, base[ACTIVE], scratch) && (|before| < |after| ==> scratch !in base)
    ensures AllSafe(base, before, after)
  {
    hide During, Safe;
    forall k | |before| <= k < |after| ensures Safe(base, after[k]) {
      SafeWhileRotating(base, after[k], scratch);
    }
  }

  lemma SecondStepSafe(base: Dirs, start: seq<Dirs>, before: seq<Dirs>, after: seq<Dirs>, scratch: string)
    requires ACTIVE in base && LAST in base && TMP in base && AllSafe(base, start, before)
    requires AllDuring(before, after, Rotated(base), ACTIVE, base[TMP], scratch)
      && (|before| < |after| ==> scratch !in Rotated(base))
    ensures AllSafe(base, start, after)
  {
    hide During, Safe;
    forall k | |start| <= k < |after| ensures Safe(base, after[k]) {
      if k < |before| {
        assert after[k] == before[k];
      } else {
        SafeWhileActivating(base, after[k], scratch);
      }
    }
  }

  lemma ThirdStepSafe(base: Dirs, start: seq<Dirs>, before: seq<Dirs>, after: seq<Dirs>, scratch: string)
    requires ACTIVE in base && LAST in base && TMP in base && AllSafe(base, start, before)
    requires AllDuring(before, after, Rotated(base)[ACTIVE := base[TMP]], TMP, map[], scratch)
      && (|before| < |after| ==> scratch !in Rotated(base))
    ensures AllSafe(base, start, after)
  {
    hide During, Safe;
    forall k | |start| <= k < |after| ensures Safe(base, after[k]) {
      if k < |before| {
        assert after[k] == before[k];
      } else {
        SafeWhileClearing(base, after[k], scratch);
      }
    }
  }

  lemma NothingMissing(before: Dirs, now: Dirs, target: string, content: Files)
    requires ACTIVE in before && LAST in before && TMP in before && target in HOMES
    requires target == ACTIVE || target == LAST || target == TMP
    ensures now == before || now == before[target := content] || MovedIn(before, now, target, content) ==>
      ACTIVE in now && LAST in now && TMP in now
  {
  }

  /** What a promotion that was stopped leaves beside the three directories keeps the next one from
      starting before somebody has looked. */
  lemma LeftoversRefuse(dirs: Dirs, files: set<string>, candidateOk: Files -> bool, activeOk: Files -> bool,
                        name: string)
    requires name in dirs && (exists t :: t in {ACTIVE, LAST, TMP} && (name == Backup(t) || ScratchPrefix(t) <= name))
    ensures !Promotable(dirs, files, candidateOk, activeOk)
  {
    assert name[0] == '.';
  }
}
