/** Small datatypes shared by every module. */
module Basics {

  datatype Option<+T> = None | Some(value: T)

  /** Whether a sequence holds no element twice. */
  ghost predicate Distinct<T(!new)>(s: seq<T>) {
    forall i, j :: 0 <= i < j < |s| ==> s[i] != s[j]
  }

  lemma SomeElement<T>(s: set<T>) returns (x: T)
    requires s != {}
    ensures x in s
  {
    x :| x in s;
  }
}
