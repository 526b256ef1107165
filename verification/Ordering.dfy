/**
 Sorted, duplicate-free listings of finite sets, as the code obtains them with `sorted(...)`.
 */
module Ordering {
  import opened Basics

  ghost predicate TotalOrder<T(!new)>(less: (T, T) -> bool) {
    && (forall x :: !less(x, x))
    && (forall x, y, z :: less(x, y) && less(y, z) ==> less(x, z))
    && (forall x, y :: x == y || less(x, y) || less(y, x))
  }

  predicate Ascending<T>(s: seq<T>, less: (T, T) -> bool) {
    forall i, j :: 0 <= i < j < |s| ==> less(s[i], s[j])
  }

  lemma {:induction false} Least<T(!new)>(s: set<T>, less: (T, T) -> bool) returns (m: T)
    requires TotalOrder(less) && s != {}
    ensures m in s && forall x :: x in s ==> x == m || less(m, x)
  {
    m := SomeElement(s);
    var rest := s - {m};
    if rest != {} {
      var n := Least(rest, less);
      m := if less(m, n) then m else n;
    }
    forall x | x in s ensures x == m || less(m, x) {
      assert x in rest || x in s - rest;
    }
  }

  predicate IsLeast<T(!new)>(m: T, s: set<T>, less: (T, T) -> bool) {
    m in s && forall x :: x in s ==> x == m || less(m, x)
  }

  lemma HasLeast<T(!new)>(s: set<T>, less: (T, T) -> bool)
    requires TotalOrder(less) && s != {}
    ensures exists m :: m in s && IsLeast(m, s, less)
  {
    var m := Least(s, less);
    assert IsLeast(m, s, less);
  }

  /** The elements of the set in ascending order. */
  function SortedBy<T(!new)>(s: set<T>, less: (T, T) -> bool): (r: seq<T>)
    requires TotalOrder(less)
    ensures forall x :: x in r <==> x in s
    ensures Ascending(r, less) && |r| == |s|
  {
    if s == {} then [] else
      HasLeast(s, less);
      var m :| m in s && IsLeast(m, s, less);
      var rest := SortedBy(s - {m}, less);
      LeastInFront(m, s, rest, less);
      [m] + rest
  }

  lemma LeastInFront<T(!new)>(m: T, s: set<T>, rest: seq<T>, less: (T, T) -> bool)
    requires IsLeast(m, s, less) && Ascending(rest, less) && |rest| == |s| - 1
    requires forall x :: x in rest <==> x in s - {m}
    ensures Ascending([m] + rest, less) && |[m] + rest| == |s|
    ensures forall x :: x in [m] + rest <==> x in s
  {
    var r := [m] + rest;
    forall i, j | 0 <= i < j < |r| ensures less(r[i], r[j]) {
      assert r[j] == rest[j - 1] && rest[j - 1] in rest;
    }
    forall x ensures x in r <==> x in s {
      assert x in r <==> x == m || x in rest;
    }
  }

  lemma AscendingIsDistinct<T(!new)>(s: seq<T>, less: (T, T) -> bool)
    requires TotalOrder(less) && Ascending(s, less)
    ensures Distinct(s)
  {
  }

  /** Two ascending sequences with the same elements are the same. */
  lemma {:induction false} AscendingIsUnique<T(!new)>(a: seq<T>, b: seq<T>, less: (T, T) -> bool)
    requires TotalOrder(less) && Ascending(a, less) && Ascending(b, less)
    requires forall x :: x in a <==> x in b
    ensures a == b
  {
    if a == [] {
      assert forall i :: 0 <= i < |b| ==> b[i] in b;
    } else {
      assert a[0] in b;
      var i :| 0 <= i < |b| && b[i] == a[0];
      assert b[0] in a;
      var j :| 0 <= j < |a| && a[j] == b[0];
      assert a[0] == b[0];
      forall x ensures x in a[1..] <==> x in b[1..] {
        TailMembers(a, x, less);
        TailMembers(b, x, less);
      }
      AscendingIsUnique(a[1..], b[1..], less);
      assert a == [a[0]] + a[1..] && b == [b[0]] + b[1..];
    }
  }

  lemma TailMembers<T(!new)>(a: seq<T>, x: T, less: (T, T) -> bool)
    requires TotalOrder(less) && Ascending(a, less) && a != []
    ensures x in a[1..] <==> x in a && x != a[0]
  {
    assert a == [a[0]] + a[1..];
  }

  // ----- Strings, by code point

  predicate Before(a: string, b: string) {
    b != [] && (a == [] || a[0] < b[0] || (a[0] == b[0] && Before(a[1..], b[1..])))
  }

  /** The sequences agree before position `k`, where the first one ends or has the smaller element. */
  ghost predicate FirstDifference<T(!new)>(a: seq<T>, b: seq<T>, k: nat, less: (T, T) -> bool) {
    k <= |a| && k < |b| && a[..k] == b[..k] && (k == |a| || less(a[k], b[k]))
  }

  lemma DifferenceStep<T(!new)>(a: seq<T>, b: seq<T>, k: nat, less: (T, T) -> bool)
    ensures FirstDifference(a, b, 0, less) <==> b != [] && (a == [] || less(a[0], b[0]))
    ensures a != [] && b != [] && a[0] == b[0] ==>
      (FirstDifference(a, b, k + 1, less) <==> FirstDifference(a[1..], b[1..], k, less))
    ensures a == [] || b == [] || a[0] != b[0] ==> !FirstDifference(a, b, k + 1, less)
  {
    if k < |a| && k < |b| {
      assert a[..k + 1] == [a[0]] + a[1..][..k] && b[..k + 1] == [b[0]] + b[1..][..k];
    }
  }

  predicate CharBefore(a: char, b: char) { a < b }

  /** Texts are compared at the first character in which they differ; a prefix comes first. */
  lemma {:induction false} BeforeExactly(a: string, b: string)
    ensures Before(a, b) <==> exists k :: FirstDifference(a, b, k, CharBefore)
  {
    DifferenceStep(a, b, 0, CharBefore);
    hide FirstDifference;
    if k: nat :| FirstDifference(a, b, k, CharBefore) {
      DifferenceStep(a, b, if k > 0 then k - 1 else 0, CharBefore);
    }
    if a != [] && b != [] && a[0] == b[0] {
      BeforeExactly(a[1..], b[1..]);
      if k: nat :| FirstDifference(a[1..], b[1..], k, CharBefore) {
        DifferenceStep(a, b, k, CharBefore);
      }
    }
  }

  lemma {:induction false} BeforeIrreflexive(a: string)
    ensures !Before(a, a)
  {
    if a != [] {
      BeforeIrreflexive(a[1..]);
    }
  }

  lemma {:induction false} BeforeTransitive(a: string, b: string, c: string)
    ensures Before(a, b) && Before(b, c) ==> Before(a, c)
  {
    if a != [] && b != [] && c != [] {
      BeforeTransitive(a[1..], b[1..], c[1..]);
    }
  }

  lemma {:induction false} BeforeTotal(a: string, b: string)
    ensures a == b || Before(a, b) || Before(b, a)
  {
    if a != [] && b != [] {
      BeforeTotal(a[1..], b[1..]);
      assert a == [a[0]] + a[1..] && b == [b[0]] + b[1..];
    }
  }

  lemma StringsAreOrdered()
    ensures TotalOrder(Before)
  {
    forall a ensures !Before(a, a) { BeforeIrreflexive(a); }
    forall a, b, c | Before(a, b) && Before(b, c) ensures Before(a, c) { BeforeTransitive(a, b, c); }
    forall a, b ensures a == b || Before(a, b) || Before(b, a) { BeforeTotal(a, b); }
  }

  function SortedStrings(s: set<string>): (r: seq<string>)
    ensures forall x :: x in r <==> x in s
    ensures Ascending(r, Before) && |r| == |s|
  {
    StringsAreOrdered();
    SortedBy(s, Before)
  }

  /** Pairs of strings, first component first. */
  predicate PairBefore(a: (string, string), b: (string, string)) {
    Before(a.0, b.0) || (a.0 == b.0 && Before(a.1, b.1))
  }

  lemma PairBeforeExactly(a: (string, string), b: (string, string))
    ensures PairBefore(a, b) <==> if a.0 != b.0 then Before(a.0, b.0) else Before(a.1, b.1)
  {
    BeforeIrreflexive(a.0);
  }

  lemma PairsAreOrdered()
    ensures TotalOrder(PairBefore)
  {
    StringsAreOrdered();
  }

  // ----- Paths, name by name

  predicate PathBefore(a: seq<string>, b: seq<string>) {
    b != [] && (a == [] || Before(a[0], b[0]) || (a[0] == b[0] && PathBefore(a[1..], b[1..])))
  }

  predicate NameBefore(a: string, b: string) { Before(a, b) }

  /** Paths are compared at the first name in which they differ; a parent comes first. */
  lemma {:induction false} PathBeforeExactly(a: seq<string>, b: seq<string>)
    ensures PathBefore(a, b) <==> exists k :: FirstDifference(a, b, k, NameBefore)
  {
    DifferenceStep(a, b, 0, NameBefore);
    hide FirstDifference;
    if k: nat :| FirstDifference(a, b, k, NameBefore) {
      DifferenceStep(a, b, if k > 0 then k - 1 else 0, NameBefore);
    }
    if a != [] && b != [] && a[0] == b[0] {
      BeforeIrreflexive(a[0]);
      PathBeforeExactly(a[1..], b[1..]);
      if k: nat :| FirstDifference(a[1..], b[1..], k, NameBefore) {
        DifferenceStep(a, b, k, NameBefore);
      }
    }
  }

  lemma {:induction false} PathBeforeIrreflexive(a: seq<string>)
    ensures !PathBefore(a, a)
  {
    if a != [] {
      BeforeIrreflexive(a[0]);
      PathBeforeIrreflexive(a[1..]);
    }
  }

  lemma {:induction false} PathBeforeTransitive(a: seq<string>, b: seq<string>, c: seq<string>)
    ensures PathBefore(a, b) && PathBefore(b, c) ==> PathBefore(a, c)
  {
    if a != [] && b != [] && c != [] {
      BeforeTransitive(a[0], b[0], c[0]);
      PathBeforeTransitive(a[1..], b[1..], c[1..]);
    }
  }

  lemma {:induction false} PathBeforeTotal(a: seq<string>, b: seq<string>)
    ensures a == b || PathBefore(a, b) || PathBefore(b, a)
  {
    if a != [] && b != [] {
      BeforeTotal(a[0], b[0]);
      PathBeforeTotal(a[1..], b[1..]);
      assert a == [a[0]] + a[1..] && b == [b[0]] + b[1..];
    }
  }

  lemma PathsAreOrdered()
    ensures TotalOrder(PathBefore)
  {
    forall a ensures !PathBefore(a, a) { PathBeforeIrreflexive(a); }
    forall a, b, c | PathBefore(a, b) && PathBefore(b, c) ensures PathBefore(a, c) { PathBeforeTransitive(a, b, c); }
    forall a, b ensures a == b || PathBefore(a, b) || PathBefore(b, a) { PathBeforeTotal(a, b); }
  }
}
