/**
 Enumeration of the dependency cycles that touch a source-boundary module
 (`_source_boundary_cycles` of the Tach baseline check).
 */
module Cycles {
  import opened Basics
  import opened Ordering

  type Name = string

  type Graph = map<Name, seq<Name>>

  const SOURCE_BOUNDARY_MODULES: set<Name> := {
    "seektalent.runtime",
    "seektalent.source_contracts",
    "seektalent.source_adapters",
    "seektalent.sources",
    "seektalent.providers",
    "seektalent.opencli_browser"
  }

  // ----- What the search is for

  /** `b` is a dependency of `a`, and both are modules of the graph. */
  predicate Edge(g: Graph, a: Name, b: Name) {
    a in g && b in g && b in g[a]
  }

  /** Consecutive modules of a nonempty walk depend on one another. */
  ghost predicate Walk(g: Graph, w: seq<Name>) {
    && w != [] && (forall i :: 0 <= i < |w| ==> w[i] in g)
    && (forall i :: 0 <= i < |w| - 1 ==> Edge(g, w[i], w[i + 1]))
  }

  /** A closed walk (c0, ..., ck-1, c0) with distinct c0, ..., ck-1 and at least one edge. */
  ghost predicate SimpleCycle(g: Graph, c: seq<Name>) {
    && Walk(g, c) && |c| >= 2 && c[0] == c[|c| - 1] && Distinct(c[..|c| - 1])
  }

  predicate TouchesBoundary(c: seq<Name>) {
    exists m :: m in c && m in SOURCE_BOUNDARY_MODULES
  }

  /** The cycles to report. */
  ghost predicate BoundaryCycle(g: Graph, c: seq<Name>) {
    SimpleCycle(g, c) && TouchesBoundary(c)
  }

  // ----- The search

  /** A walk without repetition whose last module has just been met again. */
  ghost predicate Lasso(g: Graph, w: seq<Name>) {
    && Walk(g, w) && Distinct(w[..|w| - 1]) && w[|w| - 1] in w[..|w| - 1]
  }

  /** The position of the first occurrence. */
  function IndexOf(path: seq<Name>, node: Name): (i: nat)
    requires node in path
    ensures i < |path| && path[i] == node && forall j :: 0 <= j < i ==> path[j] != node
  {
    if path[0] == node then 0 else 1 + IndexOf(path[1..], node)
  }

  ghost function CycleOf(w: seq<Name>): seq<Name>
    requires w != [] && w[|w| - 1] in w[..|w| - 1]
  {
    w[IndexOf(w[..|w| - 1], w[|w| - 1])..]
  }

  /** `c` closes some lasso that starts with `prefix`. */
  ghost predicate FoundBeyond(g: Graph, prefix: seq<Name>, c: seq<Name>) {
    exists w :: Lasso(g, w) && prefix <= w && c == CycleOf(w) && TouchesBoundary(c)
  }

  /** `c` closes some lasso that continues `prefix` with one of `next`. */
  ghost predicate FoundVia(g: Graph, prefix: seq<Name>, next: seq<Name>, c: seq<Name>) {
    exists d :: d in next && d in g && FoundBeyond(g, prefix + [d], c)
  }

  lemma RepeatedLast(w: seq<Name>)
    requires w != [] && w[|w| - 1] in w[..|w| - 1]
    ensures !Distinct(w)
  {
    var j :| 0 <= j < |w| - 1 && w[..|w| - 1][j] == w[|w| - 1];
    assert w[j] == w[|w| - 1];
  }

  lemma ProperPrefixDistinct(w: seq<Name>, prefix: seq<Name>)
    requires w != [] && prefix <= w && Distinct(w[..|w| - 1])
    ensures |prefix| < |w| ==> Distinct(prefix)
  {
    if |prefix| < |w| {
      assert prefix == w[..|w| - 1][..|prefix|];
    }
  }

  lemma LassoClosed(g: Graph, prefix: seq<Name>, w: seq<Name>)
    requires Lasso(g, w) && prefix <= w && prefix != [] && prefix[|prefix| - 1] in prefix[..|prefix| - 1]
    ensures w == prefix
  {
    RepeatedLast(prefix);
    ProperPrefixDistinct(w, prefix);
  }

  lemma LongerLasso(g: Graph, prefix: seq<Name>, w: seq<Name>)
    requires prefix != [] && Distinct(prefix) && Lasso(g, w) && prefix <= w
    ensures |prefix| < |w| && prefix + [w[|prefix|]] <= w && Edge(g, prefix[|prefix| - 1], w[|prefix|])
  {
    RepeatedLast(w);
    assert w != prefix;
    assert Edge(g, w[|prefix| - 1], w[|prefix|]);
  }

  lemma LassoContinues(g: Graph, prefix: seq<Name>, c: seq<Name>)
    requires Walk(g, prefix) && Distinct(prefix)
    ensures FoundBeyond(g, prefix, c) <==> FoundVia(g, prefix, g[prefix[|prefix| - 1]], c)
  {
    assert prefix != [] && prefix[|prefix| - 1] in g;
    hide CycleOf, TouchesBoundary, Walk, Edge;
    if FoundBeyond(g, prefix, c) {
      var w :| Lasso(g, w) && prefix <= w && c == CycleOf(w) && TouchesBoundary(c);
      LongerLasso(g, prefix, w);
      assert FoundBeyond(g, prefix + [w[|prefix|]], c);
    }
    if FoundVia(g, prefix, g[prefix[|prefix| - 1]], c) {
      var d :| d in g[prefix[|prefix| - 1]] && d in g && FoundBeyond(g, prefix + [d], c);
      var w :| Lasso(g, w) && prefix + [d] <= w && c == CycleOf(w) && TouchesBoundary(c);
      assert prefix <= prefix + [d] <= w;
    }
  }

  lemma FoundHere(g: Graph, path: seq<Name>, node: Name, cycle: seq<Name>)
    requires Walk(g, path + [node]) && Distinct(path) && node in path
    requires cycle == path[IndexOf(path, node)..] + [node]
    ensures forall c :: FoundBeyond(g, path + [node], c) <==> c == cycle && TouchesBoundary(c)
  {
    var prefix := path + [node];
    assert prefix[..|prefix| - 1] == path;
    assert Lasso(g, prefix) && CycleOf(prefix) == cycle;
    forall w | Lasso(g, w) && prefix <= w ensures w == prefix {
      LassoClosed(g, prefix, w);
    }
    assert prefix <= prefix;
  }

  // ----- Lassos from anywhere are exactly the simple cycles

  lemma CycleOfLasso(g: Graph, w: seq<Name>)
    requires Lasso(g, w)
    ensures SimpleCycle(g, CycleOf(w))
  {
    var front := w[..|w| - 1];
    var i := IndexOf(front, w[|w| - 1]);
    var c := CycleOf(w);
    assert c[..|c| - 1] == front[i..];
    forall k | 0 <= k < |c| - 1 ensures Edge(g, c[k], c[k + 1]) {
      assert Edge(g, w[i + k], w[i + k + 1]);
    }
  }

  lemma CycleIsLasso(g: Graph, c: seq<Name>)
    requires SimpleCycle(g, c)
    ensures Lasso(g, c) && CycleOf(c) == c
  {
    assert c[..|c| - 1][0] == c[0];
  }

  /** Starting from every module finds exactly the cycles to report. */
  lemma FoundFromAnywhere(g: Graph, modules: seq<Name>, c: seq<Name>)
    requires forall m :: m in g <==> m in modules
    ensures (exists m :: m in modules && FoundBeyond(g, [m], c)) <==> BoundaryCycle(g, c)
  {
    if exists m :: m in modules && FoundBeyond(g, [m], c) {
      var m :| m in modules && FoundBeyond(g, [m], c);
      var w :| Lasso(g, w) && [m] <= w && c == CycleOf(w) && TouchesBoundary(c);
      CycleOfLasso(g, w);
    }
    if BoundaryCycle(g, c) {
      CycleIsLasso(g, c);
      assert [c[0]] <= c;
      assert FoundBeyond(g, [c[0]], c);
    }
  }

  class CycleSearch {
    const graph: Graph
    var cycles: set<seq<Name>>

    constructor (graph: Graph)
      ensures this.graph == graph && cycles == {}
    {
      this.graph, this.cycles := graph, {};
    }

    method Visit(node: Name, path: seq<Name>)
      requires node in graph && Walk(graph, path + [node]) && Distinct(path)
      modifies this`cycles
      ensures forall c :: c in cycles <==> c in old(cycles) || FoundBeyond(graph, path + [node], c)
      decreases graph.Keys - (set m | m in path), 1
    {
      if node in path {
        var cycle := path[IndexOf(path, node)..] + [node];
        FoundHere(graph, path, node, cycle);
        if TouchesBoundary(cycle) {
          cycles := cycles + {cycle};
        }
        return;
      }
      var next := graph[node];
      var prefix := path + [node];
      for k := 0 to |next|
        invariant forall c :: c in cycles <==> c in old(cycles) || FoundVia(graph, prefix, next[..k], c)
      {
        var dependency := next[k];
        ghost var before := cycles;
        assert next[..k + 1] == next[..k] + [dependency];
        if dependency in graph {
          assert Edge(graph, node, dependency);
          assert node in graph.Keys - (set m | m in path) && node !in graph.Keys - (set m | m in prefix);
          Visit(dependency, prefix);
        }
        forall c ensures c in cycles <==> c in old(cycles) || FoundVia(graph, prefix, next[..k + 1], c) {
        }
      }
      assert next[..|next|] == next;
      forall c ensures FoundBeyond(graph, prefix, c) <==> FoundVia(graph, prefix, next, c) {
        LassoContinues(graph, prefix, c);
      }
    }

    /** One search from every module, in the order of the dictionary. */
    method Search(modules: seq<Name>)
      requires forall m :: m in graph <==> m in modules
      requires cycles == {}
      modifies this`cycles
      ensures forall c :: c in cycles <==> BoundaryCycle(graph, c)
    {
      for k := 0 to |modules|
        invariant forall c :: c in cycles <==> exists m :: m in modules[..k] && FoundBeyond(graph, [m], c)
      {
        var m := modules[k];
        assert [] + [m] == [m];
        ghost var before := cycles;
        Visit(m, []);
        assert modules[..k + 1] == modules[..k] + [m];
        forall c ensures c in cycles <==> exists x :: x in modules[..k + 1] && FoundBeyond(graph, [x], c) {
          assert c in before <==> exists x :: x in modules[..k] && FoundBeyond(graph, [x], c);
        }
      }
      assert modules[..|modules|] == modules;
      forall c ensures (exists m :: m in modules && FoundBeyond(graph, [m], c)) <==> BoundaryCycle(graph, c) {
        FoundFromAnywhere(graph, modules, c);
      }
    }
  }

  // ----- What the report means

  ghost predicate ClosedWalkAt(g: Graph, m: Name, w: seq<Name>) {
    Walk(g, w) && |w| >= 2 && w[0] == m && w[|w| - 1] == m
  }

  /** `m` can get back to itself through one or more dependencies. */
  ghost predicate ReachesItself(g: Graph, m: Name) {
    exists w :: ClosedWalkAt(g, m, w)
  }

  /** Cutting out the stretch between two visits of one module keeps the walk. */
  lemma CutLoop(g: Graph, m: Name, w: seq<Name>, i: nat, j: nat)
    requires ClosedWalkAt(g, m, w) && i < j < |w| - 1 && w[i] == w[j]
    ensures ClosedWalkAt(g, m, w[..i] + w[j..])
  {
    var v := w[..i] + w[j..];
    forall k | 0 <= k < |v| - 1 ensures Edge(g, v[k], v[k + 1]) {
      var k' := if k < i then k else k + (j - i);
      assert v[k] == w[k'];
      assert Edge(g, w[k'], w[k' + 1]);
    }
  }

  /** Every closed walk shortens to a simple cycle at the same module. */
  lemma {:induction false} Shorten(g: Graph, m: Name, w: seq<Name>) returns (c: seq<Name>)
    requires ClosedWalkAt(g, m, w)
    ensures SimpleCycle(g, c) && c[0] == m
    decreases |w|
  {
    if Distinct(w[..|w| - 1]) {
      c := w;
    } else {
      var i, j :| 0 <= i < j < |w| - 1 && w[..|w| - 1][i] == w[..|w| - 1][j];
      CutLoop(g, m, w, i, j);
      c := Shorten(g, m, w[..i] + w[j..]);
    }
  }

  function Rotate(c: seq<Name>, k: nat): seq<Name>
    requires k < |c|
  {
    c[k..] + c[1..k + 1]
  }

  /** Where an element of a rotation comes from. */
  function Origin(n: nat, k: nat, i: nat): nat
    requires k < n && i <= n
  {
    if i < n - k then i + k else i + k - n
  }

  lemma RotateAt(c: seq<Name>, k: nat, i: nat)
    requires |c| >= 2 && k < |c| - 1 && c[0] == c[|c| - 1] && i < |c|
    ensures var n := |c| - 1;
      Rotate(c, k)[i] == c[Origin(n, k, i)]
        && (i < n ==> Origin(n, k, i) < n && Rotate(c, k)[i + 1] == c[Origin(n, k, i) + 1])
  {
  }

  /** Every rotation of a cycle is a cycle through the same modules. */
  lemma RotationIsCycle(g: Graph, c: seq<Name>, k: nat)
    requires SimpleCycle(g, c) && k < |c| - 1
    ensures SimpleCycle(g, Rotate(c, k)) && Rotate(c, k)[0] == c[k]
    ensures forall m :: m in Rotate(c, k) <==> m in c
  {
    var r, n := Rotate(c, k), |c| - 1;
    RotateAt(c, k, 0);
    RotateAt(c, k, n);
    forall i | 0 <= i < n ensures Edge(g, r[i], r[i + 1]) {
      RotateAt(c, k, i);
    }
    forall i, j | 0 <= i < j < n ensures r[i] != r[j] {
      RotateAt(c, k, i);
      RotateAt(c, k, j);
      assert c[..n][Origin(n, k, i)] != c[..n][Origin(n, k, j)];
    }
    forall m ensures m in r <==> m in c {
      if m in c {
        var i :| 0 <= i < |c| && c[i] == m;
        RotateAt(c, k, if i >= k then i - k else i + n - k);
      }
    }
  }

  lemma RotationIsReported(g: Graph, c: seq<Name>, k: nat)
    requires BoundaryCycle(g, c) && k < |c| - 1
    ensures BoundaryCycle(g, Rotate(c, k))
  {
    RotationIsCycle(g, c, k);
  }

  lemma ReachedByCycle(g: Graph, c: seq<Name>, m: Name)
    requires SimpleCycle(g, c) && m in c
    ensures ReachesItself(g, m)
  {
    var k :| 0 <= k < |c| && c[k] == m;
    var i := if k == |c| - 1 then 0 else k;
    RotationIsCycle(g, c, i);
    assert ClosedWalkAt(g, m, Rotate(c, i));
  }

  /** Something is reported exactly when a source-boundary module depends on itself. */
  lemma ReportsExactlySelfReaching(g: Graph)
    ensures (exists c :: BoundaryCycle(g, c)) <==> exists m :: m in SOURCE_BOUNDARY_MODULES && ReachesItself(g, m)
  {
    hide SimpleCycle, SOURCE_BOUNDARY_MODULES;
    if exists m :: m in SOURCE_BOUNDARY_MODULES && ReachesItself(g, m) {
      var m :| m in SOURCE_BOUNDARY_MODULES && ReachesItself(g, m);
      var w :| ClosedWalkAt(g, m, w);
      var c := Shorten(g, m, w);
      assert m in c;
      assert BoundaryCycle(g, c);
    }
    if exists c :: BoundaryCycle(g, c) {
      var c :| BoundaryCycle(g, c);
      var m :| m in c && m in SOURCE_BOUNDARY_MODULES;
      ReachedByCycle(g, c, m);
    }
  }

  /** The whole check: the cycles in order, none of them twice; the list is empty exactly when no
      boundary module reaches itself. */
  method SourceBoundaryCycles(graph: Graph, modules: seq<Name>) returns (found: seq<seq<Name>>)
    requires forall m :: m in graph <==> m in modules
    ensures forall c :: c in found <==> BoundaryCycle(graph, c)
    ensures Ascending(found, PathBefore) && Distinct(found)
    ensures found == [] <==> forall m :: m in SOURCE_BOUNDARY_MODULES ==> !ReachesItself(graph, m)
  {
    hide PathBefore, BoundaryCycle, ReachesItself;
    var search := new CycleSearch(graph);
    search.Search(modules);
    PathsAreOrdered();
    found := SortedBy(search.cycles, PathBefore);
    AscendingIsDistinct(found, PathBefore);
    ReportsExactlySelfReaching(graph);
    SomeMember(found);
  }

  lemma SomeMember<T>(s: seq<T>)
    ensures s != [] <==> exists x :: x in s
  {
    if s != [] {
      assert s[0] in s;
    }
  }
}
