/**
 The file system as the installer sees it: a finite map from absolute paths (the
 sequence of their names) to nodes, together with the renames, directory creations and
 removals the installer performs. Symbolic links, modes and time stamps are not modelled.
 */
module FileTree {

  type Path = seq<string>

  datatype Node = Dir | File(content: string)

  type Tree = map<Path, Node>

  /** Neither path lies below (or at) the other. */
  predicate Apart(a: Path, b: Path) {
    !(a <= b) && !(b <= a)
  }

  function Parent(p: Path): Path
    requires p != []
  {
    p[..|p| - 1]
  }

  predicate IsDir(fs: Tree, p: Path) {
    p in fs && fs[p].Dir?
  }

  /** Two trees agree at one path. */
  ghost predicate Same(fs: Tree, fs': Tree, p: Path) {
    (p in fs <==> p in fs') && (p in fs ==> fs[p] == fs'[p])
  }

  /** Every entry but the root has a directory as its parent. */
  ghost predicate WellFormed(fs: Tree) {
    IsDir(fs, []) && forall p :: p in fs && p != [] ==> IsDir(fs, Parent(p))
  }

  /** The tree found at `root`, keyed by paths relative to it; empty when nothing is there. */
  function At(fs: Tree, root: Path): Tree {
    map s | s in (set p | p in fs && root <= p :: p[|root|..]) && root + s in fs :: fs[root + s]
  }

  /** Renaming `a` to `b`: the tree at `a` replaces whatever was at `b`. */
  function Move(fs: Tree, a: Path, b: Path): Tree {
    map p | p in fs.Keys + (set q | q in fs && a <= q :: b + q[|a|..]) &&
            (if b <= p then a + p[|b|..] in fs else p in fs && !(a <= p))
      :: if b <= p then fs[a + p[|b|..]] else fs[p]
  }

  /** The entries that survive a best-effort recursive removal of `root`. */
  function Prune(fs: Tree, root: Path, survivors: set<Path>): (r: Tree)
    ensures forall p :: !(root <= p) ==> Same(fs, r, p)
    ensures forall p :: p in r ==> p in fs && r[p] == fs[p]
    ensures forall p :: root <= p && p !in survivors ==> p !in r
  {
    map p | p in fs && (root <= p ==> p in survivors) :: fs[p]
  }

  predicate Childless(fs: Tree, p: Path) {
    forall q :: q in fs && p <= q ==> q == p
  }

  /** When the operating system performs a rename: the source exists, the target's parent is a
      directory, and the target is absent, a file under a file, or an empty directory under a directory. */
  predicate CanReplace(fs: Tree, src: Path, dst: Path) {
    src in fs && src != [] && dst != [] && IsDir(fs, Parent(dst)) &&
    !(src <= dst && src != dst) &&
    (dst in fs && src != dst ==>
       if fs[dst].Dir? then fs[src].Dir? && Childless(fs, dst) else fs[src].File?)
  }

  // ----- Facts about subtrees

  lemma SplitAt(root: Path, p: Path)
    requires root <= p
    ensures p == root + p[|root|..]
  {
  }

  lemma AtHas(fs: Tree, root: Path, s: Path)
    ensures s in At(fs, root) <==> root + s in fs
    ensures s in At(fs, root) ==> At(fs, root)[s] == fs[root + s]
  {
    if root + s in fs {
      assert (root + s)[|root|..] == s;
    }
  }

  lemma MoveHas(fs: Tree, a: Path, b: Path, s: Path)
    ensures b + s in Move(fs, a, b) <==> a + s in fs
    ensures a + s in fs ==> Move(fs, a, b)[b + s] == fs[a + s]
  {
    assert (b + s)[|b|..] == s;
    if a + s in fs {
      assert (a + s)[|a|..] == s;
    }
  }

  lemma MoveElsewhere(fs: Tree, a: Path, b: Path, p: Path)
    ensures !(b <= p) && a <= p ==> p !in Move(fs, a, b)
    ensures !(b <= p) && !(a <= p) ==> Same(fs, Move(fs, a, b), p)
  {
  }

  /** Subtrees are equal when they have the same entries. */
  lemma SameTree(fs: Tree, p: Path, fs': Tree, q: Path)
    requires forall s :: p + s in fs <==> q + s in fs'
    requires forall s :: p + s in fs && q + s in fs' ==> fs[p + s] == fs'[q + s]
    ensures At(fs, p) == At(fs', q)
  {
    forall s
      ensures s in At(fs, p) <==> s in At(fs', q)
      ensures s in At(fs, p) && s in At(fs', q) ==> At(fs, p)[s] == At(fs', q)[s]
    {
      AtHas(fs, p, s);
      AtHas(fs', q, s);
    }
  }

  lemma EmptyTree(fs: Tree, p: Path)
    requires forall s :: p + s !in fs
    ensures At(fs, p) == map[]
  {
    forall s ensures s !in At(fs, p) {
      AtHas(fs, p, s);
    }
  }

  /** Two prefixes of one path are comparable. */
  lemma PrefixesCompare(a: Path, b: Path, p: Path)
    ensures a <= p && b <= p ==> a <= b || b <= a
  {
  }

  lemma {:induction false} ClosedUnderParents(fs: Tree, root: Path, s: Path)
    requires WellFormed(fs)
    ensures root + s in fs ==> root in fs
    decreases |s|
  {
    if s == [] {
      assert root + s == root;
    } else {
      assert Parent(root + s) == root + s[..|s| - 1];
      ClosedUnderParents(fs, root, s[..|s| - 1]);
    }
  }

  lemma NothingBelowMissing(fs: Tree, root: Path)
    requires WellFormed(fs) && root !in fs
    ensures At(fs, root) == map[]
  {
    forall s ensures root + s !in fs {
      ClosedUnderParents(fs, root, s);
    }
    EmptyTree(fs, root);
  }

  /** What one rename between unrelated places does to them. */
  lemma MoveTree(fs: Tree, a: Path, b: Path)
    requires Apart(a, b)
    ensures At(Move(fs, a, b), b) == At(fs, a)
    ensures At(Move(fs, a, b), a) == map[]
  {
    var fs' := Move(fs, a, b);
    forall s ensures (b + s in fs' <==> a + s in fs) && (a + s in fs ==> fs'[b + s] == fs[a + s]) {
      MoveHas(fs, a, b, s);
    }
    SameTree(fs', b, fs, a);
    forall s ensures a + s !in fs' {
      PrefixesCompare(a, b, a + s);
      MoveElsewhere(fs, a, b, a + s);
    }
    EmptyTree(fs', a);
  }

  /** A rename leaves the tree at every unrelated place as it was. */
  lemma MoveKeeps(fs: Tree, a: Path, b: Path, r: Path)
    requires Apart(r, a) && Apart(r, b)
    ensures At(Move(fs, a, b), r) == At(fs, r)
  {
    forall s ensures Same(fs, Move(fs, a, b), r + s) {
      PrefixesCompare(a, r, r + s);
      PrefixesCompare(b, r, r + s);
      MoveElsewhere(fs, a, b, r + s);
    }
    SameTree(Move(fs, a, b), r, fs, r);
  }

  lemma PruneKeeps(fs: Tree, root: Path, survivors: set<Path>, r: Path)
    requires Apart(r, root)
    ensures At(Prune(fs, root, survivors), r) == At(fs, r)
  {
    forall s ensures Same(fs, Prune(fs, root, survivors), r + s) {
      PrefixesCompare(root, r, r + s);
    }
    SameTree(Prune(fs, root, survivors), r, fs, r);
  }

  /** A best-effort removal leaves part of the tree, and nothing when it succeeds. */
  lemma PruneTree(fs: Tree, root: Path, survivors: set<Path>)
    ensures survivors == {} ==> At(Prune(fs, root, survivors), root) == map[]
    ensures forall s :: s in At(Prune(fs, root, survivors), root) ==>
      s in At(fs, root) && At(Prune(fs, root, survivors), root)[s] == At(fs, root)[s]
  {
    var fs' := Prune(fs, root, survivors);
    forall s | s in At(fs', root) ensures s in At(fs, root) && At(fs', root)[s] == At(fs, root)[s] {
      AtHas(fs', root, s);
      AtHas(fs, root, s);
    }
    if survivors == {} {
      EmptyTree(fs', root);
    }
  }

  lemma PruneAll(fs: Tree, root: Path, survivors: set<Path>)
    requires forall q :: q in survivors ==> !(root <= q)
    ensures Prune(fs, root, survivors) == Prune(fs, root, {})
  {
  }

  /** The machine the installer runs on. Every check, rename and creation consults `faults` once and
      every removal consults `stuck` once, so a run over every such pair is a run over every pattern
      of failing operations. */
  class FileSystem {
    var fs: Tree
    var clock: nat
    const faults: nat -> bool
    const stuck: nat -> bool
    const leftovers: nat -> set<Path>

    constructor (fs: Tree, faults: nat -> bool, stuck: nat -> bool, leftovers: nat -> set<Path>)
      ensures this.fs == fs && clock == 0
      ensures this.faults == faults && this.stuck == stuck && this.leftovers == leftovers
    {
      this.fs, this.clock, this.faults, this.stuck, this.leftovers := fs, 0, faults, stuck, leftovers;
    }

    /** Some check, rename or creation made since `since` failed for a reason of the machine. */
    ghost predicate Faulted(since: nat)
      reads this
    {
      exists n :: since <= n < clock && faults(n)
    }

    /** No removal made since `since` failed for a reason of the machine. */
    ghost predicate Removable(since: nat)
      reads this
    {
      forall n :: since <= n < clock ==> !stuck(n)
    }

    /** No removal made at these times leaves anything at or below `p` behind. */
    ghost predicate Clears(since: nat, until: nat, p: Path) {
      forall n :: since <= n < until && stuck(n) ==> forall q :: q in leftovers(n) ==> !(p <= q)
    }

    /** One check that may fail without changing anything. */
    method Probe() returns (ok: bool)
      modifies this`clock
      ensures ok == !faults(old(clock)) && clock == old(clock) + 1
    {
      ok := !faults(clock);
      clock := clock + 1;
    }

    method Replace(src: Path, dst: Path) returns (ok: bool)
      modifies this
      ensures clock == old(clock) + 1
      ensures ok == (!faults(old(clock)) && CanReplace(old(fs), src, dst))
      ensures fs == if ok then Move(old(fs), src, dst) else old(fs)
    {
      ok := !faults(clock) && CanReplace(fs, src, dst);
      clock := clock + 1;
      if ok {
        fs := Move(fs, src, dst);
      }
    }

    method Mkdir(p: Path) returns (ok: bool)
      modifies this
      ensures clock == old(clock) + 1
      ensures ok == (!faults(old(clock)) && p != [] && p !in old(fs) && IsDir(old(fs), Parent(p)))
      ensures fs == if ok then old(fs)[p := Dir] else old(fs)
    {
      ok := !faults(clock) && p != [] && p !in fs && IsDir(fs, Parent(p));
      clock := clock + 1;
      if ok {
        fs := fs[p := Dir];
      }
    }

    method Rmdir(p: Path) returns (ok: bool)
      modifies this
      ensures clock == old(clock) + 1
      ensures ok == (!stuck(old(clock)) && IsDir(old(fs), p) && Childless(old(fs), p))
      ensures fs == if ok then old(fs) - {p} else old(fs)
    {
      ok := !stuck(clock) && IsDir(fs, p) && Childless(fs, p);
      clock := clock + 1;
      if ok {
        fs := fs - {p};
      }
    }

    /** Recursive removal: a failure leaves an arbitrary part behind. */
    method RemovePath(p: Path) returns (ok: bool)
      modifies this
      ensures clock == old(clock) + 1 && ok == !stuck(old(clock))
      ensures fs == Prune(old(fs), p, if stuck(old(clock)) then leftovers(old(clock)) else {})
    {
      ok := !stuck(clock);
      fs := Prune(fs, p, if stuck(clock) then leftovers(clock) else {});
      clock := clock + 1;
    }

    /** Creates `p` and its missing ancestors; existing directories are accepted. */
    method MkdirParents(p: Path) returns (ok: bool)
      modifies this
      ensures clock >= old(clock)
      ensures IsDir(old(fs), p) ==> fs == old(fs) && (ok == !faults(old(clock)))
      ensures ok ==> IsDir(fs, p)
      decreases |p|
    {
      if IsDir(fs, p) {
        ok := Probe();
      } else if p == [] || p in fs {
        ok := false;
      } else {
        ok := MkdirParents(Parent(p));
        if ok {
          ok := Mkdir(p);
        }
      }
    }
  }
}
