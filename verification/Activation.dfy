/**
 Switching a list of staged trees into place by renames, and the two-pass rollback that
 runs when any step fails (`_activate_pair` of the browser-bridge installer).
 */
module Activation {
  import opened Basics
  import opened FileTree

  /** One entry of the activation list; without a source the target is merely retired. */
  datatype Staged = Staged(source: Option<Path>, target: Path)

  datatype Refusal = IntegrityFailed | OsError

  datatype Outcome = Activated | Reraised(error: Refusal) | RollbackFailed

  /** The places an activation may touch: three for every entry. */
  datatype Slot = SourceOf(i: nat) | TargetOf(i: nat) | BackupOf(i: nat)

  function BackupName(name: string, token: string): string {
    "." + name + ".previous-" + token
  }

  function BackupPath(target: Path, token: string): (b: Path)
    requires target != []
  {
    Parent(target) + [BackupName(target[|target| - 1], token)]
  }

  ghost predicate ValidSlot(staged: seq<Staged>, s: Slot) {
    s.i < |staged| && staged[s.i].target != [] && (s.SourceOf? ==> staged[s.i].source.Some?)
  }

  ghost function Place(staged: seq<Staged>, token: string, s: Slot): Path
    requires ValidSlot(staged, s)
  {
    match s
    case SourceOf(i) => staged[i].source.value
    case TargetOf(i) => staged[i].target
    case BackupOf(i) => BackupPath(staged[i].target, token)
  }

  /** What the caller provides: staged sources and targets that are no part of one another. */
  ghost predicate SeparateEntries(staged: seq<Staged>) {
    && (forall i :: 0 <= i < |staged| ==>
        staged[i].target != [] && (staged[i].source.Some? ==> staged[i].source.value != []))
    && (forall i, j :: 0 <= i < j < |staged| ==> Apart(staged[i].target, staged[j].target))
    && (forall i, j :: 0 <= i < j < |staged| && staged[i].source.Some? && staged[j].source.Some? ==>
          Apart(staged[i].source.value, staged[j].source.value))
    && (forall i, j :: 0 <= i < |staged| && 0 <= j < |staged| && staged[i].source.Some? ==>
          Apart(staged[i].source.value, staged[j].target))
  }

  /** The random token of this run occurs in no name on disk and in no path of the list. */
  ghost predicate FreshToken(fs: Tree, staged: seq<Staged>, token: string) {
    forall i :: 0 <= i < |staged| && staged[i].target != [] ==>
      var name := BackupName(staged[i].target[|staged[i].target| - 1], token);
      && (forall p :: p in fs ==> name !in p)
      && (forall j :: 0 <= j < |staged| ==> name !in staged[j].target)
      && (forall j :: 0 <= j < |staged| && staged[j].source.Some? ==> name !in staged[j].source.value)
  }

  ghost predicate Stageable(fs: Tree, staged: seq<Staged>, token: string) {
    WellFormed(fs) && SeparateEntries(staged) && FreshToken(fs, staged, token)
  }

  ghost predicate Independent(staged: seq<Staged>, token: string) {
    && (forall i :: 0 <= i < |staged| ==> staged[i].target != [])
    && (forall a, b :: ValidSlot(staged, a) && ValidSlot(staged, b) && a != b ==>
          Apart(Place(staged, token, a), Place(staged, token, b)))
  }

  lemma BackupNameInjective(a: string, b: string, token: string)
    ensures BackupName(a, token) == BackupName(b, token) ==> a == b
  {
    var x, y := BackupName(a, token), BackupName(b, token);
    assert |x| == |a| + 11 + |token| && |y| == |b| + 11 + |token|;
    assert x[1..1 + |a|] == a && y[1..1 + |b|] == b;
  }

  lemma LastNameIn(b: Path, other: Path)
    requires b != []
    ensures b <= other ==> b[|b| - 1] in other
  {
    if b <= other {
      assert other[|b| - 1] == b[|b| - 1];
    }
  }

  /** A proper prefix of a path is a proper prefix of its siblings. */
  lemma ProperPrefixOfSibling(other: Path, p: Path, q: Path)
    requires p != [] && q != [] && Parent(p) == Parent(q)
    ensures other <= p ==> other == p || (other <= q && |other| < |q|)
  {
    if other <= p && other != p {
      assert |other| < |p|;
      assert other == p[..|other|] == Parent(p)[..|other|];
    }
  }

  lemma ChildDeterminesName(p: Path, q: Path)
    requires p != [] && q != []
    ensures p == q <==> Parent(p) == Parent(q) && p[|p| - 1] == q[|q| - 1]
  {
    assert p == Parent(p) + [p[|p| - 1]] && q == Parent(q) + [q[|q| - 1]];
  }

  /** A backup path is unrelated to every path whose names do not include it. */
  lemma BackupApart(target: Path, token: string, other: Path)
    requires target != [] && BackupName(target[|target| - 1], token) !in other
    requires Apart(other, target) || other == target
    ensures Apart(BackupPath(target, token), other)
  {
    var backup := BackupPath(target, token);
    LastNameIn(backup, other);
    ProperPrefixOfSibling(other, backup, target);
  }

  lemma BackupsApart(s: Path, t: Path, token: string)
    requires s != [] && t != [] && Apart(s, t)
    requires BackupName(s[|s| - 1], token) !in t && BackupName(t[|t| - 1], token) !in s
    ensures Apart(BackupPath(s, token), BackupPath(t, token))
  {
    var p, q := BackupPath(s, token), BackupPath(t, token);
    ProperPrefixOfSibling(p, q, t);
    ProperPrefixOfSibling(q, p, s);
    LastNameIn(p, t);
    LastNameIn(q, s);
    ChildDeterminesName(s, t);
    ChildDeterminesName(p, q);
    BackupNameInjective(s[|s| - 1], t[|t| - 1], token);
  }

  lemma SlotsIndependent(fs: Tree, staged: seq<Staged>, token: string)
    requires Stageable(fs, staged, token)
    ensures Independent(staged, token)
  {
    forall a, b | ValidSlot(staged, a) && ValidSlot(staged, b) && a != b
      ensures Apart(Place(staged, token, a), Place(staged, token, b))
    {
      if a.BackupOf? && b.BackupOf? {
        BackupsApart(staged[a.i].target, staged[b.i].target, token);
      } else if a.BackupOf? {
        BackupApart(staged[a.i].target, token, Place(staged, token, b));
      } else if b.BackupOf? {
        BackupApart(staged[b.i].target, token, Place(staged, token, a));
      }
    }
  }

  // ----- Where each entry stands

  /** Idle: untouched. Moved: the old tree is at the backup. Live: the new tree is at the target.
      Lost: an undo failed, only the backup is known. Saved: the backup of a lost entry is back.
      Retired: switched, and the backup is being removed. */
  datatype Phase = Idle | Moved | Live | Lost | Saved | Retired

  ghost predicate ItemIn(fs0: Tree, fs: Tree, item: Staged, token: string, phase: Phase)
    requires item.target != []
  {
    var t, b := At(fs, item.target), At(fs, BackupPath(item.target, token));
    var t0 := At(fs0, item.target);
    match phase
    case Idle => t == t0 && b == map[]
      && (item.source.Some? ==> At(fs, item.source.value) == At(fs0, item.source.value))
    case Moved => t == map[] && b == t0
      && (item.source.Some? ==> At(fs, item.source.value) == At(fs0, item.source.value))
    case Live => item.source.Some? && item.source.value in fs0 && item.source.value != [] && b == t0 &&
      t == At(fs0, item.source.value) && At(fs, item.source.value) == map[]
    case Lost => b == t0
    case Saved => t == t0
    case Retired => IsSwitched(fs0, fs, item) && IsPartOf(b, t0)
  }

  /** The target holds the staged tree, or nothing when there was none, and the stage is empty. */
  ghost predicate IsSwitched(fs0: Tree, fs: Tree, item: Staged) {
    match item.source
    case None => At(fs, item.target) == map[]
    case Some(source) => source in fs0 && At(fs, item.target) == At(fs0, source) && At(fs, source) == map[]
  }

  ghost predicate IsPartOf(part: Tree, whole: Tree) {
    forall s :: s in part ==> s in whole && part[s] == whole[s]
  }

  ghost predicate InSlots(staged: seq<Staged>, token: string, p: Path) {
    exists s :: ValidSlot(staged, s) && Place(staged, token, s) <= p
  }

  /** Nothing outside the places of the activation changed. */
  ghost predicate ElsewhereSame(fs0: Tree, fs: Tree, staged: seq<Staged>, token: string) {
    forall p :: !InSlots(staged, token, p) ==> Same(fs0, fs, p)
  }

  ghost predicate Tracked(fs0: Tree, fs: Tree, staged: seq<Staged>, token: string, ph: seq<Phase>) {
    && |ph| == |staged|
    && Independent(staged, token)
    && (forall i :: 0 <= i < |staged| ==> ItemIn(fs0, fs, staged[i], token, ph[i]))
    && ElsewhereSame(fs0, fs, staged, token)
  }

  /** One rename between two places of entry `i` leaves every other entry and the rest alone. */
  lemma MoveKeepsOthers(fs0: Tree, fs: Tree, staged: seq<Staged>, token: string, ph: seq<Phase>, a: Slot, b: Slot)
    requires Tracked(fs0, fs, staged, token, ph)
    requires ValidSlot(staged, a) && ValidSlot(staged, b) && a != b && a.i == b.i
    ensures var fs' := Move(fs, Place(staged, token, a), Place(staged, token, b));
      && ElsewhereSame(fs0, fs', staged, token)
      && (forall j :: 0 <= j < |staged| && j != a.i ==> ItemIn(fs0, fs', staged[j], token, ph[j]))
      && (forall c :: ValidSlot(staged, c) && c != a && c != b ==>
            At(fs', Place(staged, token, c)) == At(fs, Place(staged, token, c)))
  {
    hide At, Move, Prune;
    var p, q := Place(staged, token, a), Place(staged, token, b);
    var fs' := Move(fs, p, q);
    forall c | ValidSlot(staged, c) && c != a && c != b
      ensures At(fs', Place(staged, token, c)) == At(fs, Place(staged, token, c))
    {
      MoveKeeps(fs, p, q, Place(staged, token, c));
    }
    forall x | !InSlots(staged, token, x) ensures Same(fs0, fs', x) {
      MoveElsewhere(fs, p, q, x);
    }
    forall j | 0 <= j < |staged| && j != a.i ensures ItemIn(fs0, fs', staged[j], token, ph[j]) {
      OtherItem(fs0, fs, fs', staged, token, j, ph[j]);
    }
  }

  lemma OtherItem(fs0: Tree, fs: Tree, fs': Tree, staged: seq<Staged>, token: string, j: nat, phase: Phase)
    requires j < |staged| && staged[j].target != [] && ItemIn(fs0, fs, staged[j], token, phase)
    requires forall c :: ValidSlot(staged, c) && c.i == j ==>
      At(fs', Place(staged, token, c)) == At(fs, Place(staged, token, c))
    ensures ItemIn(fs0, fs', staged[j], token, phase)
  {
    hide At, Move, Prune;
    assert At(fs', Place(staged, token, TargetOf(j))) == At(fs, Place(staged, token, TargetOf(j)));
    assert At(fs', Place(staged, token, BackupOf(j))) == At(fs, Place(staged, token, BackupOf(j)));
    if staged[j].source.Some? {
      assert At(fs', Place(staged, token, SourceOf(j))) == At(fs, Place(staged, token, SourceOf(j)));
    }
  }

  lemma PruneKeepsOthers(fs0: Tree, fs: Tree, staged: seq<Staged>, token: string, ph: seq<Phase>, a: Slot,
                         survivors: set<Path>)
    requires Tracked(fs0, fs, staged, token, ph) && ValidSlot(staged, a)
    ensures var fs' := Prune(fs, Place(staged, token, a), survivors);
      && ElsewhereSame(fs0, fs', staged, token)
      && (forall j :: 0 <= j < |staged| && j != a.i ==> ItemIn(fs0, fs', staged[j], token, ph[j]))
      && (forall c :: ValidSlot(staged, c) && c != a ==>
            At(fs', Place(staged, token, c)) == At(fs, Place(staged, token, c)))
  {
    hide At, Move;
    var fs' := Prune(fs, Place(staged, token, a), survivors);
    forall c | ValidSlot(staged, c) && c != a
      ensures At(fs', Place(staged, token, c)) == At(fs, Place(staged, token, c))
    {
      PruneKeeps(fs, Place(staged, token, a), survivors, Place(staged, token, c));
    }
    forall j | 0 <= j < |staged| && j != a.i ensures ItemIn(fs0, fs', staged[j], token, ph[j]) {
      OtherItem(fs0, fs, fs', staged, token, j, ph[j]);
    }
  }

  lemma PrefixTransitive(a: Path, b: Path, c: Path)
    ensures a <= b && b <= c ==> a <= c && |a| <= |b|
  {
  }

  /** The directory holding a place of the activation is never inside another place, so it stays. */
  lemma ParentStays(fs0: Tree, fs: Tree, staged: seq<Staged>, token: string, s: Slot)
    requires Independent(staged, token) && ElsewhereSame(fs0, fs, staged, token)
    requires ValidSlot(staged, s) && Place(staged, token, s) != []
    ensures Same(fs0, fs, Parent(Place(staged, token, s)))
  {
    var here := Place(staged, token, s);
    assert Parent(here) <= here;
    forall c | ValidSlot(staged, c) ensures !(Place(staged, token, c) <= Parent(here)) {
      PrefixTransitive(Place(staged, token, c), Parent(here), here);
    }
  }

  lemma SameBelow(fs0: Tree, fs: Tree, here: Path, p: Path)
    requires here <= p && At(fs, here) == At(fs0, here)
    ensures Same(fs0, fs, p)
  {
    SplitAt(here, p);
    AtHas(fs, here, p[|here|..]);
    AtHas(fs0, here, p[|here|..]);
  }

  lemma SameEverywhere(fs0: Tree, fs: Tree)
    requires forall p :: Same(fs0, fs, p)
    ensures fs == fs0
  {
    assert forall p :: p in fs ==> Same(fs0, fs, p);
    assert forall p :: p in fs0 ==> Same(fs0, fs, p);
  }

  lemma UntouchedWhenAllIdle(fs0: Tree, fs: Tree, staged: seq<Staged>, token: string, ph: seq<Phase>)
    requires Tracked(fs0, fs, staged, token, ph)
    requires forall i :: 0 <= i < |staged| ==> ph[i].Idle? && At(fs0, BackupPath(staged[i].target, token)) == map[]
    ensures fs == fs0
  {
    hide At, Move, Prune;
    forall p ensures Same(fs0, fs, p) {
      if InSlots(staged, token, p) {
        var s :| ValidSlot(staged, s) && Place(staged, token, s) <= p;
        assert ItemIn(fs0, fs, staged[s.i], token, Idle);
        SameBelow(fs0, fs, Place(staged, token, s), p);
      }
    }
    SameEverywhere(fs0, fs);
  }

  lemma BackupsAbsent(fs: Tree, staged: seq<Staged>, token: string, i: nat)
    requires Stageable(fs, staged, token) && i < |staged|
    ensures At(fs, BackupPath(staged[i].target, token)) == map[]
  {
    var b := BackupPath(staged[i].target, token);
    forall s ensures b + s !in fs {
      LastNameIn(b, b + s);
    }
    EmptyTree(fs, b);
  }

  // ----- Steps

  lemma MoveStep(fs0: Tree, fs: Tree, staged: seq<Staged>, token: string, ph: seq<Phase>, a: Slot, b: Slot, next: Phase)
    requires Tracked(fs0, fs, staged, token, ph)
    requires ValidSlot(staged, a) && ValidSlot(staged, b) && a != b && a.i == b.i
    requires ItemIn(fs0, Move(fs, Place(staged, token, a), Place(staged, token, b)), staged[a.i], token, next)
    ensures Tracked(fs0, Move(fs, Place(staged, token, a), Place(staged, token, b)), staged, token, ph[a.i := next])
  {
    hide At, Move, Prune;
    MoveKeepsOthers(fs0, fs, staged, token, ph, a, b);
  }

  lemma PruneStep(fs0: Tree, fs: Tree, staged: seq<Staged>, token: string, ph: seq<Phase>, a: Slot,
                  survivors: set<Path>, next: Phase)
    requires Tracked(fs0, fs, staged, token, ph) && ValidSlot(staged, a)
    requires ItemIn(fs0, Prune(fs, Place(staged, token, a), survivors), staged[a.i], token, next)
    ensures Tracked(fs0, Prune(fs, Place(staged, token, a), survivors), staged, token, ph[a.i := next])
  {
    hide At, Move, Prune;
    PruneKeepsOthers(fs0, fs, staged, token, ph, a, survivors);
  }

  lemma BackUp(fs0: Tree, fs: Tree, staged: seq<Staged>, token: string, ph: seq<Phase>, i: nat)
    requires Tracked(fs0, fs, staged, token, ph) && i < |staged| && ph[i].Idle?
    ensures Tracked(fs0, Move(fs, staged[i].target, BackupPath(staged[i].target, token)), staged, token, ph[i := Moved])
  {
    hide At, Move, Prune;
    MoveTree(fs, Place(staged, token, TargetOf(i)), Place(staged, token, BackupOf(i)));
    MoveKeepsOthers(fs0, fs, staged, token, ph, TargetOf(i), BackupOf(i));
    if staged[i].source.Some? { assert ValidSlot(staged, SourceOf(i)); }
    MoveStep(fs0, fs, staged, token, ph, TargetOf(i), BackupOf(i), Moved);
  }

  lemma Activate(fs0: Tree, fs: Tree, staged: seq<Staged>, token: string, ph: seq<Phase>, i: nat)
    requires Tracked(fs0, fs, staged, token, ph) && i < |staged| && ph[i].Moved?
    requires staged[i].source.Some? && staged[i].source.value in fs0 && staged[i].source.value != []
    ensures Tracked(fs0, Move(fs, staged[i].source.value, staged[i].target), staged, token, ph[i := Live])
  {
    hide At, Move, Prune;
    MoveTree(fs, Place(staged, token, SourceOf(i)), Place(staged, token, TargetOf(i)));
    MoveKeepsOthers(fs0, fs, staged, token, ph, SourceOf(i), TargetOf(i));
    assert ValidSlot(staged, BackupOf(i));
    MoveStep(fs0, fs, staged, token, ph, SourceOf(i), TargetOf(i), Live);
  }

  lemma Deactivate(fs0: Tree, fs: Tree, staged: seq<Staged>, token: string, ph: seq<Phase>, i: nat)
    requires Tracked(fs0, fs, staged, token, ph) && i < |staged| && ph[i].Live?
    ensures Tracked(fs0, Move(fs, staged[i].target, staged[i].source.value), staged, token, ph[i := Moved])
  {
    hide At, Move, Prune;
    MoveTree(fs, Place(staged, token, TargetOf(i)), Place(staged, token, SourceOf(i)));
    MoveKeepsOthers(fs0, fs, staged, token, ph, TargetOf(i), SourceOf(i));
    assert ValidSlot(staged, BackupOf(i));
    MoveStep(fs0, fs, staged, token, ph, TargetOf(i), SourceOf(i), Moved);
  }

  lemma Restore(fs0: Tree, fs: Tree, staged: seq<Staged>, token: string, ph: seq<Phase>, i: nat)
    requires Tracked(fs0, fs, staged, token, ph) && i < |staged| && (ph[i].Moved? || ph[i].Lost?)
    ensures Tracked(fs0, Move(fs, BackupPath(staged[i].target, token), staged[i].target), staged, token,
                    ph[i := if ph[i].Moved? then Idle else Saved])
  {
    hide At, Move, Prune;
    MoveTree(fs, Place(staged, token, BackupOf(i)), Place(staged, token, TargetOf(i)));
    MoveKeepsOthers(fs0, fs, staged, token, ph, BackupOf(i), TargetOf(i));
    if staged[i].source.Some? { assert ValidSlot(staged, SourceOf(i)); }
    MoveStep(fs0, fs, staged, token, ph, BackupOf(i), TargetOf(i), if ph[i].Moved? then Idle else Saved);
  }

  lemma Abandon(fs0: Tree, fs: Tree, staged: seq<Staged>, token: string, ph: seq<Phase>, i: nat, survivors: set<Path>)
    requires Tracked(fs0, fs, staged, token, ph) && i < |staged| && ph[i].Live?
    ensures Tracked(fs0, Prune(fs, staged[i].target, survivors), staged, token, ph[i := Lost])
  {
    hide At, Move, Prune;
    PruneKeepsOthers(fs0, fs, staged, token, ph, TargetOf(i), survivors);
    assert ValidSlot(staged, BackupOf(i));
    PruneStep(fs0, fs, staged, token, ph, TargetOf(i), survivors, Lost);
  }

  lemma Discard(fs0: Tree, fs: Tree, staged: seq<Staged>, token: string, ph: seq<Phase>, i: nat, survivors: set<Path>)
    requires Tracked(fs0, fs, staged, token, ph) && i < |staged| && ph[i].Retired?
    ensures Tracked(fs0, Prune(fs, BackupPath(staged[i].target, token), survivors), staged, token, ph)
    ensures survivors == {} ==>
      At(Prune(fs, BackupPath(staged[i].target, token), survivors), BackupPath(staged[i].target, token)) == map[]
  {
    hide At, Move, Prune;
    PruneKeepsOthers(fs0, fs, staged, token, ph, BackupOf(i), survivors);
    PruneTree(fs, BackupPath(staged[i].target, token), survivors);
    assert ValidSlot(staged, TargetOf(i));
    if staged[i].source.Some? { assert ValidSlot(staged, SourceOf(i)); }
    PruneStep(fs0, fs, staged, token, ph, BackupOf(i), survivors, Retired);
    assert ph[i := Retired] == ph;
  }

  /** Retiring a target that does not exist needs no rename. */
  lemma NothingToBackUp(fs0: Tree, fs: Tree, staged: seq<Staged>, token: string, ph: seq<Phase>, i: nat)
    requires WellFormed(fs0) && Tracked(fs0, fs, staged, token, ph) && i < |staged| && ph[i].Idle?
    requires staged[i].target !in fs0
    ensures Tracked(fs0, fs, staged, token, ph[i := Moved])
  {
    hide At, Move, Prune;
    NothingBelowMissing(fs0, staged[i].target);
  }

  lemma PresentTogether(fs0: Tree, fs: Tree, p: Path, q: Path)
    requires At(fs, p) == At(fs0, q)
    ensures p in fs <==> q in fs0
  {
    assert p + [] == p && q + [] == q;
    AtHas(fs, p, []);
    AtHas(fs0, q, []);
  }

  lemma NothingThere(fs: Tree, p: Path)
    requires At(fs, p) == map[]
    ensures p !in fs
  {
    assert p + [] == p;
    AtHas(fs, p, []);
  }

  /** A rename between two places of an entry is possible once the way is clear. */
  lemma CanRename(fs0: Tree, fs: Tree, staged: seq<Staged>, token: string, ph: seq<Phase>, a: Slot, b: Slot)
    requires Tracked(fs0, fs, staged, token, ph)
    requires ValidSlot(staged, a) && ValidSlot(staged, b) && a != b
    requires Place(staged, token, a) in fs && At(fs, Place(staged, token, b)) == map[]
    requires Place(staged, token, a) != [] && Place(staged, token, b) != []
    ensures IsDir(fs0, Parent(Place(staged, token, b))) ==>
              CanReplace(fs, Place(staged, token, a), Place(staged, token, b))
  {
    hide At, Move, Prune;
    ParentStays(fs0, fs, staged, token, b);
    NothingThere(fs, Place(staged, token, b));
  }

  // ----- The switch

  /** The two lists the code keeps: (backup, target) and (target, source). */
  datatype Journal = Journal(backups: seq<(Path, Path)>, activated: seq<(Path, Path)>)

  /** Which entries the pairs of the journal stand for, and how far each entry is. */
  datatype Account = Account(ph: seq<Phase>, bs: seq<int>, acts: seq<int>)

  ghost predicate Listed(fs0: Tree, staged: seq<Staged>, token: string, journal: Journal, acc: Account)
    requires |acc.ph| == |staged| && forall i :: 0 <= i < |staged| ==> staged[i].target != []
  {
    && |journal.backups| == |acc.bs| && |journal.activated| == |acc.acts| && Distinct(acc.bs) && Distinct(acc.acts)
    && (forall j :: 0 <= j < |acc.bs| ==>
          && 0 <= acc.bs[j] < |staged| && staged[acc.bs[j]].target in fs0 && !acc.ph[acc.bs[j]].Idle?
          && journal.backups[j] == (BackupPath(staged[acc.bs[j]].target, token), staged[acc.bs[j]].target))
    && (forall j :: 0 <= j < |acc.acts| ==>
          && 0 <= acc.acts[j] < |staged| && acc.ph[acc.acts[j]].Live? && staged[acc.acts[j]].source.Some?
          && journal.activated[j] == (staged[acc.acts[j]].target, staged[acc.acts[j]].source.value))
    && (forall i :: 0 <= i < |staged| && !acc.ph[i].Idle? && staged[i].target in fs0 ==> i in acc.bs)
    && (forall i :: 0 <= i < |staged| && acc.ph[i].Live? ==> i in acc.acts)
  }

  ghost predicate Consistent(fs0: Tree, fs: Tree, staged: seq<Staged>, token: string, journal: Journal, acc: Account) {
    Tracked(fs0, fs, staged, token, acc.ph) && Listed(fs0, staged, token, journal, acc)
  }

  /** Entries before `k` are switched, the others untouched. */
  ghost predicate SwitchedUpTo(staged: seq<Staged>, ph: seq<Phase>, k: nat) {
    && |ph| == |staged| && k <= |staged|
    && (forall i :: 0 <= i < k ==> if staged[i].source.Some? then ph[i].Live? else ph[i].Moved?)
    && (forall i :: k <= i < |staged| ==> ph[i].Idle?)
  }

  /** Every precondition the code checks holds: an activation without faults goes through. */
  ghost predicate Ready(fs: Tree, staged: seq<Staged>, installRoot: Path) {
    forall i :: 0 <= i < |staged| && staged[i].target != [] ==> EntryReady(fs, staged[i], installRoot)
  }

  ghost predicate EntryReady(fs: Tree, item: Staged, installRoot: Path)
    requires item.target != []
  {
    && TargetOk(fs, item.target, installRoot)
    && (item.source.Some? ==> IsDir(fs, Parent(item.target)) && item.source.value in fs)
  }

  method CheckTarget(disk: FileSystem, target: Path, installRoot: Path) returns (refusal: Option<Refusal>)
    requires target != []
    modifies disk`clock
    ensures disk.clock >= old(disk.clock)
    ensures refusal.None? ==> TargetOk(disk.fs, target, installRoot)
    ensures refusal.Some? ==> disk.Faulted(old(disk.clock)) || !TargetOk(disk.fs, target, installRoot)
  {
    if !(installRoot <= Parent(target)) {
      return Some(IntegrityFailed);
    }
    var plain := disk.Probe();
    if !plain {
      return Some(IntegrityFailed);
    }
    var resolved := disk.Probe();
    if !resolved || Parent(target) !in disk.fs {
      return Some(OsError);
    }
    plain := disk.Probe();
    refusal := if plain then None else Some(IntegrityFailed);
  }

  // What one iteration does when nothing fails for a reason of the machine.

  function RetireStep(fs: Tree, target: Path, token: string): Option<Tree>
    requires target != []
  {
    if target !in fs then Some(fs)
    else if CanReplace(fs, target, BackupPath(target, token)) then Some(Move(fs, target, BackupPath(target, token)))
    else None
  }

  function InstallStep(fs: Tree, item: Staged): Option<Tree> {
    if item.source.None? then Some(fs)
    else if CanReplace(fs, item.source.value, item.target) then Some(Move(fs, item.source.value, item.target))
    else None
  }

  predicate TargetOk(fs: Tree, target: Path, installRoot: Path)
    requires target != []
  {
    installRoot <= Parent(target) && Parent(target) in fs
  }

  function SwitchStep(fs: Tree, item: Staged, token: string, installRoot: Path): Option<Tree>
    requires item.target != []
  {
    if !TargetOk(fs, item.target, installRoot) || RetireStep(fs, item.target, token).None? then None
    else InstallStep(RetireStep(fs, item.target, token).value, item)
  }

  /** Where the code runs: a tree and the backups listed so far. */
  datatype Progress = Progress(fs: Tree, backups: seq<Path>)

  predicate HasTargets(staged: seq<Staged>) {
    forall i :: 0 <= i < |staged| ==>
      staged[i].target != [] && (staged[i].source.Some? ==> staged[i].source.value != [])
  }

  /** The switch of a whole list without faults, whether or not its entries are separate. */
  function SwitchRun(fs: Tree, staged: seq<Staged>, token: string, installRoot: Path): Option<Progress>
    requires HasTargets(staged)
  {
    if staged == [] then Some(Progress(fs, []))
    else
      var front, item := staged[..|staged| - 1], staged[|staged| - 1];
      var before := SwitchRun(fs, front, token, installRoot);
      if before.None? || SwitchStep(before.value.fs, item, token, installRoot).None? then None
      else
        var now := SwitchStep(before.value.fs, item, token, installRoot).value;
        Some(Progress(now, before.value.backups + NewBackup(before.value.fs, item.target, token)))
  }

  function NewBackup(fs: Tree, target: Path, token: string): seq<Path>
    requires target != []
  {
    if target in fs then [BackupPath(target, token)] else []
  }

  lemma {:induction false} RunFailsAtOnce(fs: Tree, staged: seq<Staged>, token: string, installRoot: Path, k: nat)
    requires HasTargets(staged) && k <= |staged|
    ensures SwitchRun(fs, staged[..k], token, installRoot).None? ==> SwitchRun(fs, staged, token, installRoot).None?
  {
    hide SwitchStep;
    if k < |staged| {
      RunFailsAtOnce(fs, staged[..|staged| - 1], token, installRoot, k);
      assert staged[..|staged| - 1][..k] == staged[..k];
    } else {
      assert staged[..k] == staged;
    }
  }

  function Discarded(fs: Tree, backups: seq<Path>): Tree {
    if backups == [] then fs else Prune(Discarded(fs, backups[..|backups| - 1]), backups[|backups| - 1], {})
  }

  /** The first half of one iteration: the old tree, if any, goes to its backup path. The facts about
      separate entries hold when `sep` does; the others always. */
  method RetireTarget(disk: FileSystem, staged: seq<Staged>, token: string, k: nat,
                      ghost sep: bool, ghost fs0: Tree, ghost ph: seq<Phase>)
    returns (ok: bool, backedUp: bool)
    requires k < |staged| == |ph| && staged[k].target != []
    requires sep ==> WellFormed(fs0) && Tracked(fs0, disk.fs, staged, token, ph) && ph[k].Idle?
    modifies disk
    ensures disk.clock >= old(disk.clock)
    ensures sep ==> Tracked(fs0, disk.fs, staged, token, if ok then ph[k := Moved] else ph)
    ensures sep ==> backedUp == (ok && staged[k].target in fs0)
    ensures sep && !ok ==> disk.Faulted(old(disk.clock))
    ensures ok ==> RetireStep(old(disk.fs), staged[k].target, token) == Some(disk.fs)
    ensures ok ==> backedUp == (staged[k].target in old(disk.fs))
    ensures !ok ==> disk.Faulted(old(disk.clock)) || RetireStep(old(disk.fs), staged[k].target, token).None?
  {
    hide At, Move, Prune;
    var target := staged[k].target;
    if sep {
      assert ItemIn(fs0, disk.fs, staged[k], token, Idle);
      PresentTogether(fs0, disk.fs, target, target);
      if target in disk.fs {
        CanRename(fs0, disk.fs, staged, token, ph, TargetOf(k), BackupOf(k));
        BackUp(fs0, disk.fs, staged, token, ph, k);
      } else {
        NothingToBackUp(fs0, disk.fs, staged, token, ph, k);
      }
    }
    hide Tracked, ItemIn, CanReplace;
    ok, backedUp := true, false;
    if target in disk.fs {
      ok := disk.Replace(target, BackupPath(target, token));
      backedUp := ok;
    }
  }

  /** The second half of one iteration: the staged tree goes to the target. */
  method InstallSource(disk: FileSystem, staged: seq<Staged>, token: string, k: nat,
                       ghost sep: bool, ghost fs0: Tree, ghost ph: seq<Phase>)
    returns (ok: bool)
    requires k < |staged| == |ph| && staged[k].target != [] && staged[k].source.Some? && staged[k].source.value != []
    requires sep ==> Tracked(fs0, disk.fs, staged, token, ph) && ph[k].Moved?
    modifies disk
    ensures disk.clock >= old(disk.clock)
    ensures sep ==> Tracked(fs0, disk.fs, staged, token, if ok then ph[k := Live] else ph)
    ensures sep && !ok && IsDir(fs0, Parent(staged[k].target)) && staged[k].source.value in fs0 ==>
      disk.Faulted(old(disk.clock))
    ensures sep && ok ==> IsDir(fs0, Parent(staged[k].target)) && staged[k].source.value in fs0
    ensures ok ==> InstallStep(old(disk.fs), staged[k]) == Some(disk.fs)
    ensures !ok ==> disk.Faulted(old(disk.clock)) || InstallStep(old(disk.fs), staged[k]).None?
  {
    hide At, Move, Prune;
    var source, target := staged[k].source.value, staged[k].target;
    if sep {
      assert ItemIn(fs0, disk.fs, staged[k], token, Moved);
      PresentTogether(fs0, disk.fs, source, source);
      ParentStays(fs0, disk.fs, staged, token, TargetOf(k));
      if source in fs0 {
        CanRename(fs0, disk.fs, staged, token, ph, SourceOf(k), TargetOf(k));
        Activate(fs0, disk.fs, staged, token, ph, k);
      } else {
        MissingCannotMove(disk.fs, source, target);
      }
    }
    hide Tracked, ItemIn, CanReplace;
    ok := disk.Replace(source, target);
  }

  lemma MissingCannotMove(fs: Tree, source: Path, target: Path)
    requires source !in fs
    ensures !CanReplace(fs, source, target)
  {
  }

  lemma ListedBackup(fs0: Tree, staged: seq<Staged>, token: string, journal: Journal, acc: Account, k: nat,
                     backedUp: bool)
    requires |acc.ph| == |staged| && forall i :: 0 <= i < |staged| ==> staged[i].target != []
    requires Listed(fs0, staged, token, journal, acc) && k < |staged| && acc.ph[k].Idle?
    requires backedUp == (staged[k].target in fs0)
    ensures var pair := (BackupPath(staged[k].target, token), staged[k].target);
      Listed(fs0, staged, token, if backedUp then journal.(backups := journal.backups + [pair]) else journal,
             acc.(ph := acc.ph[k := Moved], bs := if backedUp then acc.bs + [k] else acc.bs))
  {
  }

  lemma ListedActivation(fs0: Tree, staged: seq<Staged>, token: string, journal: Journal, acc: Account, k: nat)
    requires |acc.ph| == |staged| && forall i :: 0 <= i < |staged| ==> staged[i].target != []
    requires Listed(fs0, staged, token, journal, acc) && k < |staged| && acc.ph[k].Moved?
    requires staged[k].source.Some?
    ensures var pair := (staged[k].target, staged[k].source.value);
      Listed(fs0, staged, token, journal.(activated := journal.activated + [pair]),
             acc.(ph := acc.ph[k := Live], acts := acc.acts + [k]))
  {
  }

  lemma InitiallyIdle(fs0: Tree, staged: seq<Staged>, token: string)
    requires Stageable(fs0, staged, token)
    ensures Consistent(fs0, fs0, staged, token, Journal([], []), Account(seq(|staged|, _ => Idle), [], []))
  {
    SlotsIndependent(fs0, staged, token);
    forall i | 0 <= i < |staged| ensures ItemIn(fs0, fs0, staged[i], token, Idle) {
      BackupsAbsent(fs0, staged, token, i);
    }
  }

  /** The pairs of the journal have paths. */
  ghost predicate Usable(journal: Journal) {
    forall j :: 0 <= j < |journal.activated| ==> journal.activated[j].0 != [] && journal.activated[j].1 != []
  }

  function BackupsOf(journal: Journal): (r: seq<Path>)
    ensures |r| == |journal.backups| && forall j :: 0 <= j < |r| ==> r[j] == journal.backups[j].0
  {
    seq(|journal.backups|, j requires 0 <= j < |journal.backups| => journal.backups[j].0)
  }

  /** One iteration of the switch. */
  method SwitchOne(disk: FileSystem, staged: seq<Staged>, installRoot: Path, token: string, k: nat,
                   journal: Journal, ghost sep: bool, ghost fs0: Tree, ghost acc: Account)
    returns (error: Option<Refusal>, journal': Journal, ghost acc': Account)
    requires k < |staged| == |acc.ph| && HasTargets(staged) && Usable(journal)
    requires sep ==> WellFormed(fs0) && SeparateEntries(staged) && Consistent(fs0, disk.fs, staged, token, journal, acc)
    requires sep ==> acc.ph[k].Idle?
    modifies disk
    ensures disk.clock >= old(disk.clock) && |acc'.ph| == |acc.ph| && Usable(journal')
    ensures sep ==> Consistent(fs0, disk.fs, staged, token, journal', acc')
    ensures acc'.ph == acc.ph || acc'.ph == acc.ph[k := Moved] || acc'.ph == acc.ph[k := Live]
    ensures error.None? && sep ==> acc'.ph == acc.ph[k := if staged[k].source.Some? then Live else Moved]
    ensures error.Some? && sep && EntryReady(fs0, staged[k], installRoot) ==> disk.Faulted(old(disk.clock))
    ensures error.None? && sep ==> EntryReady(fs0, staged[k], installRoot)
    ensures error.None? ==> SwitchStep(old(disk.fs), staged[k], token, installRoot) == Some(disk.fs)
    ensures error.None? ==>
      BackupsOf(journal') == BackupsOf(journal) + NewBackup(old(disk.fs), staged[k].target, token)
    ensures error.Some? ==>
      disk.Faulted(old(disk.clock)) || SwitchStep(old(disk.fs), staged[k], token, installRoot).None?
  {
    hide At, Move, Prune, ItemIn, ElsewhereSame, Independent, WellFormed, CanReplace, RetireStep;
    var target := staged[k].target;
    journal', acc' := journal, acc;
    if sep {
      ParentStays(fs0, disk.fs, staged, token, TargetOf(k));
    }
    error := CheckTarget(disk, target, installRoot);
    if error.Some? {
      return;
    }
    var retired, backedUp := RetireTarget(disk, staged, token, k, sep, fs0, acc.ph);
    if !retired {
      error := Some(OsError);
      return;
    }
    acc' := acc.(ph := acc.ph[k := Moved], bs := if backedUp then acc.bs + [k] else acc.bs);
    if sep {
      ListedBackup(fs0, staged, token, journal, acc, k, backedUp);
    }
    if backedUp {
      journal' := journal.(backups := journal.backups + [(BackupPath(target, token), target)]);
    }
    if staged[k].source.Some? {
      var switched := InstallSource(disk, staged, token, k, sep, fs0, acc'.ph);
      if !switched {
        error := Some(OsError);
        return;
      }
      if sep {
        ListedActivation(fs0, staged, token, journal', acc', k);
      }
      journal' := journal'.(activated := journal'.activated + [(target, staged[k].source.value)]);
      acc' := acc'.(ph := acc'.ph[k := Live], acts := acc'.acts + [k]);
      assert acc'.ph == acc.ph[k := Live];
    }
  }

  method SwitchAll(disk: FileSystem, staged: seq<Staged>, installRoot: Path, token: string)
    returns (error: Option<Refusal>, journal: Journal, ghost acc: Account)
    requires HasTargets(staged)
    modifies disk
    ensures disk.clock >= old(disk.clock) && |acc.ph| == |staged| && Usable(journal)
    ensures Stageable(old(disk.fs), staged, token) ==> Consistent(old(disk.fs), disk.fs, staged, token, journal, acc)
    ensures Stageable(old(disk.fs), staged, token) ==>
      forall i :: 0 <= i < |acc.ph| ==> acc.ph[i].Idle? || acc.ph[i].Moved? || acc.ph[i].Live?
    ensures error.None? && Stageable(old(disk.fs), staged, token) ==>
      SwitchedUpTo(staged, acc.ph, |staged|) && Ready(old(disk.fs), staged, installRoot)
    ensures error.Some? && Stageable(old(disk.fs), staged, token) && Ready(old(disk.fs), staged, installRoot) ==>
      disk.Faulted(old(disk.clock))
    ensures error.None? ==>
      SwitchRun(old(disk.fs), staged, token, installRoot) == Some(Progress(disk.fs, BackupsOf(journal)))
    ensures error.Some? ==> disk.Faulted(old(disk.clock)) || SwitchRun(old(disk.fs), staged, token, installRoot).None?
  {
    hide At, Move, Prune, ItemIn, ElsewhereSame, Independent, Tracked, Listed, SwitchStep, SwitchRun, Stageable;
    hide EntryReady;
    ghost var sep := Stageable(disk.fs, staged, token);
    error, journal, acc := None, Journal([], []), Account(seq(|staged|, _ => Idle), [], []);
    if sep {
      InitiallyIdle(disk.fs, staged, token);
      StageableParts(disk.fs, staged, token);
    }
    RunNothing(disk.fs, staged, token, installRoot);
    for k := 0 to |staged|
      invariant disk.clock >= old(disk.clock) && |acc.ph| == |staged| && Usable(journal)
      invariant error.None?
      invariant sep ==> Consistent(old(disk.fs), disk.fs, staged, token, journal, acc)
      invariant sep ==> SwitchedUpTo(staged, acc.ph, k)
      invariant sep ==> forall i :: 0 <= i < k ==> EntryReady(old(disk.fs), staged[i], installRoot)
      invariant SwitchRun(old(disk.fs), staged[..k], token, installRoot) == Some(Progress(disk.fs, BackupsOf(journal)))
    {
      RunFailsAtOnce(old(disk.fs), staged, token, installRoot, k + 1);
      RunStep(old(disk.fs), staged, token, installRoot, k);
      error, journal, acc := SwitchOne(disk, staged, installRoot, token, k, journal, sep, old(disk.fs), acc);
      if error.Some? {
        return;
      }
    }
    assert staged[..|staged|] == staged;
  }

  lemma StageableParts(fs: Tree, staged: seq<Staged>, token: string)
    requires Stageable(fs, staged, token)
    ensures WellFormed(fs) && SeparateEntries(staged) && HasTargets(staged)
  {
  }

  lemma RunNothing(fs: Tree, staged: seq<Staged>, token: string, installRoot: Path)
    requires HasTargets(staged)
    ensures SwitchRun(fs, staged[..0], token, installRoot) == Some(Progress(fs, []))
  {
  }

  lemma RunStep(fs: Tree, staged: seq<Staged>, token: string, installRoot: Path, k: nat)
    requires HasTargets(staged) && k < |staged| && SwitchRun(fs, staged[..k], token, installRoot).Some?
    ensures var before := SwitchRun(fs, staged[..k], token, installRoot).value;
      var now := SwitchStep(before.fs, staged[k], token, installRoot);
      SwitchRun(fs, staged[..k + 1], token, installRoot) ==
        if now.None? then None
        else Some(Progress(now.value, before.backups + NewBackup(before.fs, staged[k].target, token)))
  {
    assert staged[..k + 1][..k] == staged[..k];
  }

  // ----- The rollback

  /** First pass, one pair: the new tree goes back to its stage; if that fails it is removed. */
  method UndoActivation(disk: FileSystem, staged: seq<Staged>, token: string, target: Path, source: Path,
                        ghost sep: bool, ghost i: nat, ghost fs0: Tree, ghost ph: seq<Phase>)
    returns (failed: bool)
    requires target != [] && source != []
    requires sep ==> WellFormed(fs0) && Tracked(fs0, disk.fs, staged, token, ph) && i < |staged| && ph[i].Live?
    requires sep ==> target == staged[i].target && staged[i].source == Some(source)
    modifies disk
    ensures disk.clock >= old(disk.clock)
    ensures sep ==> Tracked(fs0, disk.fs, staged, token, ph[i := if failed then Lost else Moved])
    ensures sep && failed ==> disk.Faulted(old(disk.clock))
  {
    hide At, Move, Prune;
    if sep {
      assert ItemIn(fs0, disk.fs, staged[i], token, Live);
      PresentTogether(fs0, disk.fs, target, source);
      ParentStays(fs0, disk.fs, staged, token, SourceOf(i));
      CanRename(fs0, disk.fs, staged, token, ph, TargetOf(i), SourceOf(i));
      Deactivate(fs0, disk.fs, staged, token, ph, i);
    }
    failed := false;
    if target in disk.fs {
      var ok := disk.MkdirParents(Parent(source));
      if ok {
        ok := disk.Replace(target, source);
      }
      if !ok {
        failed := true;
        if sep {
          Abandon(fs0, disk.fs, staged, token, ph, i,
                  if disk.stuck(disk.clock) then disk.leftovers(disk.clock) else {});
        }
        var _ := disk.RemovePath(target);
      }
    }
  }

  /** Second pass, one pair: the old tree returns to its target. */
  method UndoBackup(disk: FileSystem, staged: seq<Staged>, token: string, backup: Path, target: Path,
                    ghost sep: bool, ghost i: nat, ghost fs0: Tree, ghost ph: seq<Phase>)
    returns (failed: bool, ghost next: Phase)
    requires sep ==>
      && WellFormed(fs0) && Tracked(fs0, disk.fs, staged, token, ph) && i < |staged|
      && (ph[i].Moved? || ph[i].Lost?)
    requires sep ==> target == staged[i].target && target in fs0 && backup == BackupPath(target, token)
    modifies disk
    ensures disk.clock >= old(disk.clock)
    ensures sep ==> Tracked(fs0, disk.fs, staged, token, ph[i := next])
    ensures sep && ph[i].Moved? ==> next == if failed then Moved else Idle
    ensures sep && ph[i].Lost? ==> next.Lost? || next.Saved?
    ensures sep && ph[i].Moved? && failed ==> disk.Faulted(old(disk.clock))
  {
    hide At, Move, Prune;
    failed, next := false, if i < |ph| then ph[i] else Idle;
    if sep {
      assert ItemIn(fs0, disk.fs, staged[i], token, ph[i]);
      PresentTogether(fs0, disk.fs, backup, target);
      Restore(fs0, disk.fs, staged, token, ph, i);
      if ph[i].Moved? {
        CanRename(fs0, disk.fs, staged, token, ph, BackupOf(i), TargetOf(i));
      }
      assert ph[i := ph[i]] == ph;
    }
    if backup in disk.fs {
      var ok := disk.Replace(backup, target);
      failed := !ok;
      next := if failed || !sep then next else if ph[i].Moved? then Idle else Saved;
    }
  }

  /** The first pass of the rollback undoes or abandons every activation. */
  ghost predicate AfterFirstPass(ph0: seq<Phase>, ph: seq<Phase>, errors: nat) {
    && |ph| == |ph0|
    && (forall i :: 0 <= i < |ph| && !ph0[i].Live? ==> ph[i] == ph0[i])
    && (forall i :: 0 <= i < |ph| && ph0[i].Live? ==> ph[i].Moved? || (ph[i].Lost? && errors > 0))
  }

  /** Activations from position `j` of the list on are undone or abandoned, the others are live. */
  ghost predicate UndoneFrom(acc: Account, ph: seq<Phase>, j: int, errors: nat) {
    && |ph| == |acc.ph|
    && (forall m :: 0 <= m < |acc.acts| ==> 0 <= acc.acts[m] < |ph|)
    && (forall m :: 0 <= m < |acc.acts| && m < j ==> ph[acc.acts[m]].Live?)
    && (forall m :: 0 <= m < |acc.acts| && j <= m ==> ph[acc.acts[m]].Moved? || (ph[acc.acts[m]].Lost? && errors > 0))
    && (forall i :: 0 <= i < |ph| && !acc.ph[i].Live? ==> ph[i] == acc.ph[i])
  }

  lemma UndoneOneMore(acc: Account, ph: seq<Phase>, j: int, errors: nat, failed: bool)
    requires UndoneFrom(acc, ph, j + 1, errors) && 0 <= j < |acc.acts| && Distinct(acc.acts)
      && acc.ph[acc.acts[j]].Live?
    ensures UndoneFrom(acc, ph[acc.acts[j] := if failed then Lost else Moved], j, if failed then errors + 1 else errors)
  {
  }

  method UndoActivations(disk: FileSystem, staged: seq<Staged>, token: string, journal: Journal,
                         ghost sep: bool, ghost fs0: Tree, ghost acc: Account)
    returns (errors: nat, ghost ph: seq<Phase>)
    requires Usable(journal)
    requires sep ==> WellFormed(fs0) && Consistent(fs0, disk.fs, staged, token, journal, acc)
    modifies disk
    ensures disk.clock >= old(disk.clock)
    ensures sep ==> Tracked(fs0, disk.fs, staged, token, ph) && AfterFirstPass(acc.ph, ph, errors)
    ensures sep && errors > 0 ==> disk.Faulted(old(disk.clock))
  {
    errors, ph := 0, acc.ph;
    var j := |journal.activated|;
    while j > 0
      invariant 0 <= j <= |journal.activated|
      invariant disk.clock >= old(disk.clock)
      invariant sep ==> Tracked(fs0, disk.fs, staged, token, ph)
      invariant sep && errors > 0 ==> disk.Faulted(old(disk.clock))
      invariant sep ==> UndoneFrom(acc, ph, j, errors)
    {
      j := j - 1;
      var (target, source) := journal.activated[j];
      ghost var i := if sep then acc.acts[j] else 0;
      var failed := UndoActivation(disk, staged, token, target, source, sep, i, fs0, ph);
      if sep {
        UndoneOneMore(acc, ph, j, errors, failed);
        ph := ph[i := if failed then Lost else Moved];
      }
      errors := if failed then errors + 1 else errors;
    }
  }

  /** After both passes: without errors every backed-up entry is idle again; in any case the old
      tree of every entry is at its target or its backup. */
  ghost predicate AfterSecondPass(fs0: Tree, staged: seq<Staged>, ph: seq<Phase>, errors: nat) {
    && |ph| == |staged|
    && (forall i :: 0 <= i < |ph| ==> !ph[i].Live? && !ph[i].Retired?)
    && (errors == 0 ==> forall i :: 0 <= i < |ph| ==> ph[i].Idle? || (ph[i].Moved? && staged[i].target !in fs0))
  }

  /** Backups from position `j` of the list on have been dealt with. */
  ghost predicate RestoredFrom(acc: Account, ph0: seq<Phase>, ph: seq<Phase>, j: int, errors: nat) {
    && |ph| == |ph0| == |acc.ph|
    && (forall m :: 0 <= m < |acc.bs| ==> 0 <= acc.bs[m] < |ph|)
    && (forall m :: 0 <= m < |acc.bs| && m < j ==> ph[acc.bs[m]] == ph0[acc.bs[m]])
    && (forall m :: 0 <= m < |acc.bs| && j <= m ==>
          !ph[acc.bs[m]].Live? && !ph[acc.bs[m]].Retired? && (errors == 0 ==> ph[acc.bs[m]].Idle?))
    && (forall i :: 0 <= i < |ph| && i !in acc.bs ==> ph[i] == ph0[i])
  }

  lemma RestoredOneMore(acc: Account, ph0: seq<Phase>, ph: seq<Phase>, j: int, errors: nat, failed: bool, next: Phase)
    requires RestoredFrom(acc, ph0, ph, j + 1, errors) && 0 <= j < |acc.bs| && Distinct(acc.bs)
    requires !next.Live? && !next.Retired? && (errors == 0 && !failed ==> next.Idle?)
    ensures RestoredFrom(acc, ph0, ph[acc.bs[j] := next], j, if failed then errors + 1 else errors)
  {
    forall i | 0 <= i < |ph| && i !in acc.bs ensures ph[acc.bs[j] := next][i] == ph0[i] {
      assert acc.bs[j] in acc.bs;
    }
  }

  lemma RestoredAll(fs0: Tree, staged: seq<Staged>, token: string, journal: Journal, acc: Account,
                    ph0: seq<Phase>, ph: seq<Phase>, errors0: nat, errors: nat)
    requires |acc.ph| == |staged| && forall i :: 0 <= i < |staged| ==> staged[i].target != []
    requires Listed(fs0, staged, token, journal, acc) && AfterFirstPass(acc.ph, ph0, errors0) && errors >= errors0
    requires forall i :: 0 <= i < |acc.ph| ==> acc.ph[i].Idle? || acc.ph[i].Moved? || acc.ph[i].Live?
    requires RestoredFrom(acc, ph0, ph, 0, errors)
    ensures AfterSecondPass(fs0, staged, ph, errors)
  {
    forall i | 0 <= i < |ph|
      ensures !ph[i].Live? && !ph[i].Retired?
      ensures errors == 0 ==> ph[i].Idle? || (ph[i].Moved? && staged[i].target !in fs0)
    {
      if i in acc.bs {
        var m :| 0 <= m < |acc.bs| && acc.bs[m] == i;
      }
    }
  }

  method UndoBackups(disk: FileSystem, staged: seq<Staged>, token: string, journal: Journal, errors0: nat,
                     ghost sep: bool, ghost fs0: Tree, ghost acc: Account, ghost ph0: seq<Phase>)
    returns (errors: nat, ghost ph: seq<Phase>)
    requires sep ==> WellFormed(fs0) && |acc.ph| == |staged| && Tracked(fs0, disk.fs, staged, token, ph0)
    requires sep ==> Listed(fs0, staged, token, journal, acc) && AfterFirstPass(acc.ph, ph0, errors0)
    requires sep ==> forall i :: 0 <= i < |acc.ph| ==> acc.ph[i].Idle? || acc.ph[i].Moved? || acc.ph[i].Live?
    modifies disk
    ensures disk.clock >= old(disk.clock)
    ensures sep ==> Tracked(fs0, disk.fs, staged, token, ph) && AfterSecondPass(fs0, staged, ph, errors)
    ensures sep && errors > errors0 ==> errors0 > 0 || disk.Faulted(old(disk.clock))
    ensures errors >= errors0
  {
    errors, ph := errors0, ph0;
    var j := |journal.backups|;
    while j > 0
      invariant 0 <= j <= |journal.backups|
      invariant disk.clock >= old(disk.clock)
      invariant sep ==> Tracked(fs0, disk.fs, staged, token, ph)
      invariant errors >= errors0 && (sep && errors > errors0 ==> errors0 > 0 || disk.Faulted(old(disk.clock)))
      invariant sep ==> RestoredFrom(acc, ph0, ph, j, errors)
    {
      j := j - 1;
      var (backup, target) := journal.backups[j];
      ghost var i := if sep then acc.bs[j] else 0;
      var failed;
      ghost var next;
      failed, next := UndoBackup(disk, staged, token, backup, target, sep, i, fs0, ph);
      if sep {
        RestoredOneMore(acc, ph0, ph, j, errors, failed, next);
        ph := ph[i := next];
      }
      errors := if failed then errors + 1 else errors;
    }
    if sep {
      RestoredAll(fs0, staged, token, journal, acc, ph0, ph, errors0, errors);
    }
  }

  lemma UndoneCompletely(fs0: Tree, fs: Tree, staged: seq<Staged>, token: string, ph: seq<Phase>)
    requires Stageable(fs0, staged, token) && Tracked(fs0, fs, staged, token, ph)
    requires AfterSecondPass(fs0, staged, ph, 0)
    ensures fs == fs0
  {
    hide At, Move, Prune;
    var idle := seq(|ph|, _ => Idle);
    forall i | 0 <= i < |staged|
      ensures ItemIn(fs0, fs, staged[i], token, Idle) && At(fs0, BackupPath(staged[i].target, token)) == map[]
    {
      BackupsAbsent(fs0, staged, token, i);
      if ph[i].Moved? {
        NothingBelowMissing(fs0, staged[i].target);
      }
    }
    UntouchedWhenAllIdle(fs0, fs, staged, token, idle);
  }

  // ----- The whole activation

  /** Everything went through: every target holds its new tree (or nothing), every stage is used up,
      what is left at a backup path is part of the old tree, and nothing else changed. */
  ghost predicate Switched(fs0: Tree, fs: Tree, staged: seq<Staged>, token: string)
    requires forall i :: 0 <= i < |staged| ==> staged[i].target != []
  {
    && (forall i :: 0 <= i < |staged| ==> IsSwitched(fs0, fs, staged[i]))
    && (forall i :: 0 <= i < |staged| ==>
          IsPartOf(At(fs, BackupPath(staged[i].target, token)), At(fs0, staged[i].target)))
    && ElsewhereSame(fs0, fs, staged, token)
  }

  /** Even a failed rollback loses no old tree. */
  ghost predicate OldTreesKept(fs0: Tree, fs: Tree, staged: seq<Staged>, token: string)
    requires forall i :: 0 <= i < |staged| ==> staged[i].target != []
  {
    && (forall i :: 0 <= i < |staged| ==>
          || At(fs, staged[i].target) == At(fs0, staged[i].target)
          || At(fs, BackupPath(staged[i].target, token)) == At(fs0, staged[i].target))
    && ElsewhereSame(fs0, fs, staged, token)
  }

  ghost predicate BackupsGone(fs: Tree, staged: seq<Staged>, token: string)
    requires forall i :: 0 <= i < |staged| ==> staged[i].target != []
  {
    forall i :: 0 <= i < |staged| ==> At(fs, BackupPath(staged[i].target, token)) == map[]
  }

  lemma PartOfItself(t: Tree)
    ensures IsPartOf(t, t)
  {
  }

  lemma RetireOne(fs0: Tree, fs: Tree, item: Staged, token: string, phase: Phase)
    requires item.target != [] && ItemIn(fs0, fs, item, token, phase)
    requires if item.source.Some? then phase.Live? else phase.Moved?
    ensures ItemIn(fs0, fs, item, token, Retired)
  {
    hide At, Move, Prune;
    PartOfItself(At(fs0, item.target));
  }

  lemma RetireAll(fs0: Tree, fs: Tree, staged: seq<Staged>, token: string, ph: seq<Phase>)
    requires Tracked(fs0, fs, staged, token, ph) && SwitchedUpTo(staged, ph, |staged|)
    ensures Tracked(fs0, fs, staged, token, seq(|staged|, _ => Retired))
  {
    hide At, Move, Prune;
    forall i | 0 <= i < |staged| ensures ItemIn(fs0, fs, staged[i], token, Retired) {
      RetireOne(fs0, fs, staged[i], token, ph[i]);
    }
  }

  /** Removing one backup: it is gone unless the machine fails, and other backups stay gone. */
  method DiscardBackup(disk: FileSystem, staged: seq<Staged>, token: string, backup: Path,
                       ghost sep: bool, ghost i: nat, ghost fs0: Tree)
    requires sep ==> Tracked(fs0, disk.fs, staged, token, seq(|staged|, _ => Retired)) && i < |staged|
    requires sep ==> backup == BackupPath(staged[i].target, token)
    modifies disk
    ensures disk.clock >= old(disk.clock)
    ensures sep ==> Tracked(fs0, disk.fs, staged, token, seq(|staged|, _ => Retired))
    ensures sep && disk.Clears(old(disk.clock), disk.clock, backup) ==> At(disk.fs, backup) == map[]
    ensures sep ==> forall c :: ValidSlot(staged, c) && c != BackupOf(i) ==>
      At(disk.fs, Place(staged, token, c)) == At(old(disk.fs), Place(staged, token, c))
    ensures disk.Removable(old(disk.clock)) ==> disk.fs == Prune(old(disk.fs), backup, {})
  {
    hide At, Move, Prune;
    ghost var ph := seq(|staged|, _ => Retired);
    ghost var survivors := if disk.stuck(disk.clock) then disk.leftovers(disk.clock) else {};
    if sep {
      Discard(fs0, disk.fs, staged, token, ph, i, survivors);
      PruneKeepsOthers(fs0, disk.fs, staged, token, ph, BackupOf(i), survivors);
    }
    ghost var clears := survivors != {} ==> forall q :: q in survivors ==> !(backup <= q);
    if clears {
      PruneAll(disk.fs, backup, survivors);
      PruneTree(disk.fs, backup, {});
    }
    var _ := disk.RemovePath(backup);
    assert survivors != {} ==> disk.stuck(disk.clock - 1) && survivors == disk.leftovers(disk.clock - 1);
  }

  /** No removal made at these times leaves anything at a backup path behind. */
  ghost predicate ClearsBackups(disk: FileSystem, since: nat, until: nat, staged: seq<Staged>, token: string) {
    forall i :: 0 <= i < |staged| && staged[i].target != [] ==>
      disk.Clears(since, until, BackupPath(staged[i].target, token))
  }

  /** What holds for a time holds for every part of it. */
  lemma ClearedEarlier(disk: FileSystem, since: nat, a: nat, b: nat, until: nat, staged: seq<Staged>, token: string)
    requires since <= a && b <= until && ClearsBackups(disk, since, until, staged, token)
    ensures ClearsBackups(disk, a, b, staged, token)
    ensures forall i :: 0 <= i < |staged| && staged[i].target != [] ==>
      disk.Clears(a, b, BackupPath(staged[i].target, token))
  {
  }

  ghost predicate GoneUpTo(fs: Tree, staged: seq<Staged>, token: string, bs: seq<int>, j: nat) {
    forall m :: 0 <= m < j && m < |bs| && 0 <= bs[m] < |staged| && staged[bs[m]].target != [] ==>
      At(fs, BackupPath(staged[bs[m]].target, token)) == map[]
  }

  lemma GoneOneMore(fs: Tree, fs': Tree, staged: seq<Staged>, token: string, bs: seq<int>, j: nat)
    requires GoneUpTo(fs, staged, token, bs, j) && Distinct(bs)
    requires j < |bs| && 0 <= bs[j] < |staged| && staged[bs[j]].target != []
    requires At(fs', BackupPath(staged[bs[j]].target, token)) == map[]
    requires forall c :: ValidSlot(staged, c) && c != BackupOf(bs[j]) ==>
      At(fs', Place(staged, token, c)) == At(fs, Place(staged, token, c))
    ensures GoneUpTo(fs', staged, token, bs, j + 1)
  {
    hide At, Move, Prune;
    forall m | 0 <= m < j && 0 <= bs[m] < |staged| && staged[bs[m]].target != []
      ensures At(fs', BackupPath(staged[bs[m]].target, token)) == At(fs, BackupPath(staged[bs[m]].target, token))
    {
      assert ValidSlot(staged, BackupOf(bs[m]));
    }
  }

  lemma AllBackupsGone(fs0: Tree, fs: Tree, staged: seq<Staged>, token: string, journal: Journal, acc: Account)
    requires WellFormed(fs0) && Tracked(fs0, fs, staged, token, seq(|staged|, _ => Retired))
    requires |acc.ph| == |staged| && Listed(fs0, staged, token, journal, acc) && SwitchedUpTo(staged, acc.ph, |staged|)
    requires GoneUpTo(fs, staged, token, acc.bs, |acc.bs|)
    ensures BackupsGone(fs, staged, token)
  {
    hide At, Move, Prune;
    forall i | 0 <= i < |staged| ensures At(fs, BackupPath(staged[i].target, token)) == map[] {
      assert ItemIn(fs0, fs, staged[i], token, Retired);
      if staged[i].target in fs0 {
        assert i in acc.bs;
      } else {
        NothingBelowMissing(fs0, staged[i].target);
      }
    }
  }

  method DiscardBackups(disk: FileSystem, staged: seq<Staged>, token: string, journal: Journal,
                        ghost sep: bool, ghost fs0: Tree, ghost acc: Account)
    requires sep ==> Stageable(fs0, staged, token) && Consistent(fs0, disk.fs, staged, token, journal, acc)
    requires sep ==> SwitchedUpTo(staged, acc.ph, |staged|)
    modifies disk
    ensures disk.clock >= old(disk.clock)
    ensures sep ==> Tracked(fs0, disk.fs, staged, token, seq(|staged|, _ => Retired))
    ensures sep && ClearsBackups(disk, old(disk.clock), disk.clock, staged, token) ==>
      BackupsGone(disk.fs, staged, token)
    ensures disk.Removable(old(disk.clock)) ==> disk.fs == Discarded(old(disk.fs), BackupsOf(journal))
  {
    hide At, Move, Prune, ClearsBackups;
    ghost var backups := BackupsOf(journal);
    if sep {
      RetireAll(fs0, disk.fs, staged, token, acc.ph);
    }
    for j := 0 to |journal.backups|
      invariant disk.clock >= old(disk.clock)
      invariant sep ==> Tracked(fs0, disk.fs, staged, token, seq(|staged|, _ => Retired))
      invariant sep && ClearsBackups(disk, old(disk.clock), disk.clock, staged, token) ==>
        GoneUpTo(disk.fs, staged, token, acc.bs, j)
      invariant disk.Removable(old(disk.clock)) ==> disk.fs == Discarded(old(disk.fs), backups[..j])
    {
      ghost var before, started := disk.fs, disk.clock;
      assert backups[..j + 1][..j] == backups[..j];
      DiscardBackup(disk, staged, token, journal.backups[j].0, sep, if sep then acc.bs[j] else 0, fs0);
      if sep && ClearsBackups(disk, old(disk.clock), disk.clock, staged, token) {
        ClearedEarlier(disk, old(disk.clock), old(disk.clock), started, disk.clock, staged, token);
        ClearedEarlier(disk, old(disk.clock), started, disk.clock, disk.clock, staged, token);
        GoneOneMore(before, disk.fs, staged, token, acc.bs, j);
      }
    }
    assert backups[..|backups|] == backups;
    if sep && ClearsBackups(disk, old(disk.clock), disk.clock, staged, token) {
      AllBackupsGone(fs0, disk.fs, staged, token, journal, acc);
    }
  }

  /** What an activation of separate entries ends in. */
  ghost predicate EndsWell(fs0: Tree, fs: Tree, staged: seq<Staged>, token: string, outcome: Outcome)
    requires HasTargets(staged)
  {
    match outcome
    case Activated => Switched(fs0, fs, staged, token)
    case Reraised(_) => fs == fs0
    case RollbackFailed => OldTreesKept(fs0, fs, staged, token)
  }

  /** Any list may be given. For separate entries every ending is a good one; and whatever the entries,
      a run without faults does exactly what `SwitchRun` says. */
  method ActivatePair(disk: FileSystem, staged: seq<Staged>, installRoot: Path, token: string)
    returns (outcome: Outcome)
    requires HasTargets(staged)
    modifies disk
    ensures disk.clock >= old(disk.clock)
    ensures Stageable(old(disk.fs), staged, token) ==> EndsWell(old(disk.fs), disk.fs, staged, token, outcome)
    ensures Stageable(old(disk.fs), staged, token) && !disk.Faulted(old(disk.clock)) ==>
      (outcome.Activated? <==> Ready(old(disk.fs), staged, installRoot))
    ensures Stageable(old(disk.fs), staged, token) && outcome.Activated? ==>
      && Ready(old(disk.fs), staged, installRoot)
      && (ClearsBackups(disk, old(disk.clock), disk.clock, staged, token) ==> BackupsGone(disk.fs, staged, token))
    ensures Stageable(old(disk.fs), staged, token) && outcome.RollbackFailed? ==> disk.Faulted(old(disk.clock))
    ensures !disk.Faulted(old(disk.clock)) ==>
              var run := SwitchRun(old(disk.fs), staged, token, installRoot);
              && (outcome.Activated? <==> run.Some?)
              && (run.Some? && disk.Removable(old(disk.clock)) ==>
                    disk.fs == Discarded(run.value.fs, run.value.backups))
  {
    hide At, Move, Prune, Independent, SwitchRun, Stageable;
    ghost var fs0, sep := disk.fs, Stageable(disk.fs, staged, token);
    var error, journal;
    ghost var acc;
    error, journal, acc := SwitchAll(disk, staged, installRoot, token);
    if sep {
      StageableParts(fs0, staged, token);
    }
    if error.Some? {
      var errors;
      ghost var ph;
      errors, ph := UndoActivations(disk, staged, token, journal, sep, fs0, acc);
      errors, ph := UndoBackups(disk, staged, token, journal, errors, sep, fs0, acc, ph);
      if errors > 0 {
        if sep {
          OldTreesTracked(fs0, disk.fs, staged, token, ph, errors);
        }
        return RollbackFailed;
      }
      if sep {
        UndoneCompletely(fs0, disk.fs, staged, token, ph);
      }
      return Reraised(error.value);
    }
    DiscardBackups(disk, staged, token, journal, sep, fs0, acc);
    if sep {
      SwitchedTracked(fs0, disk.fs, staged, token);
    }
    outcome := Activated;
  }

  lemma OldTreesTracked(fs0: Tree, fs: Tree, staged: seq<Staged>, token: string, ph: seq<Phase>, errors: nat)
    requires Tracked(fs0, fs, staged, token, ph) && AfterSecondPass(fs0, staged, ph, errors)
    ensures OldTreesKept(fs0, fs, staged, token)
  {
    hide At, Move, Prune;
    assert forall i :: 0 <= i < |staged| ==> ItemIn(fs0, fs, staged[i], token, ph[i]);
  }

  lemma SwitchedTracked(fs0: Tree, fs: Tree, staged: seq<Staged>, token: string)
    requires Tracked(fs0, fs, staged, token, seq(|staged|, _ => Retired))
    ensures Switched(fs0, fs, staged, token)
  {
    hide At, Move, Prune;
    assert forall i :: 0 <= i < |staged| ==> ItemIn(fs0, fs, staged[i], token, Retired);
  }
}
