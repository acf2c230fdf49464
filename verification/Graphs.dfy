/** Finite directed graphs as sets of (parent, child) edges, with the path and
    cycle facts that the dependency engine (bindings/python/topsort.py) rests on. */
module Graphs {
  import opened Sequences


  // An item of the dependency graph, numbered: the source only ever compares items for equality.
  type Node = nat

  type Graph = set<(Node, Node)>

  // p is a walk: nonempty, and every two neighbours are an edge.
  ghost predicate IsPath(g: Graph, p: seq<Node>) {
    && 0 < |p|
    && forall i, j :: 0 <= i < |p| - 1 && j == i + 1 ==> (p[i], p[j]) in g
  }

  // c is a simple cycle: a walk without repetitions whose last node is a parent of its first.
  ghost predicate IsCycle(g: Graph, c: seq<Node>) {
    IsPath(g, c) && NoDup(c) && (c[|c| - 1], c[0]) in g
  }

  ghost predicate Acyclic(g: Graph) {
    forall c :: !IsCycle(g, c)
  }

  ghost predicate PathBetween(g: Graph, p: seq<Node>, a: Node, b: Node) {
    IsPath(g, p) && p[0] == a && p[|p| - 1] == b
  }

  ghost predicate Reaches(g: Graph, a: Node, b: Node) {
    exists p :: PathBetween(g, p, a, b)
  }

  // n lies on some cycle or is reachable from one.
  ghost predicate FromCycle(g: Graph, n: Node) {
    exists c, a :: IsCycle(g, c) && a in c && Reaches(g, a, n)
  }

  // Some walk with exactly k edges ends in n.
  ghost predicate EndsWalk(g: Graph, n: Node, k: nat) {
    exists p :: IsPath(g, p) && |p| == k + 1 && p[k] == n
  }

  // The longest walk ending in n has exactly k edges.
  ghost predicate HasDepth(g: Graph, n: Node, k: nat) {
    EndsWalk(g, n, k) && forall m: nat :: EndsWalk(g, n, m) ==> m <= k
  }

  lemma PathSlice(g: Graph, p: seq<Node>, i: nat, j: nat)
    requires IsPath(g, p) && i < j <= |p|
    ensures IsPath(g, p[i..j])
  {
  }

  lemma PathConcat(g: Graph, p: seq<Node>, q: seq<Node>)
    requires IsPath(g, p) && IsPath(g, q) && p[|p| - 1] == q[0]
    ensures IsPath(g, p + q[1..])
    ensures (p + q[1..])[|p| + |q| - 2] == q[|q| - 1]
  {
    var r := p + q[1..];
    forall i, j | 0 <= i < |r| - 1 && j == i + 1 ensures (r[i], r[j]) in g {
      if i >= |p| - 1 {
        var k := i - (|p| - 1);
        assert r[i] == q[k] && r[j] == q[k + 1];
      } else {
        assert r[i] == p[i] && r[j] == p[j];
      }
    }
  }

  lemma ReachesTransitive(g: Graph, a: Node, b: Node, c: Node)
    requires Reaches(g, a, b) && Reaches(g, b, c)
    ensures Reaches(g, a, c)
  {
    var p :| PathBetween(g, p, a, b);
    var q :| PathBetween(g, q, b, c);
    PathConcat(g, p, q);
    assert PathBetween(g, p + q[1..], a, c);
  }

  lemma ReachesSelf(g: Graph, a: Node)
    ensures Reaches(g, a, a)
  {
    assert PathBetween(g, [a], a, a);
  }

  lemma ReachesEdge(g: Graph, a: Node, b: Node)
    requires (a, b) in g
    ensures Reaches(g, a, b)
  {
    assert PathBetween(g, [a, b], a, b);
  }

  // A duplicate-free sequence over a finite set is no longer than the set.
  lemma {:induction false} Pigeonhole<T(!new)>(p: seq<T>, s: set<T>)
    requires NoDup(p) && forall x :: x in p ==> x in s
    ensures |p| <= |s|
  {
    if p != [] {
      var last := p[|p| - 1];
      var front := p[..|p| - 1];
      assert last in p;
      forall x | x in front ensures x in s - {last} {
        assert x in p;
      }
      Pigeonhole(front, s - {last});
    }
  }

  // A walk that repeats a node contains a simple cycle; it starts at position i.
  lemma {:induction false} CycleInside(g: Graph, p: seq<Node>, i0: nat, j0: nat) returns (i: nat, j: nat)
    requires IsPath(g, p) && i0 < j0 < |p| && p[i0] == p[j0]
    ensures i < j < |p| && IsCycle(g, p[i..j])
    decreases j0 - i0
  {
    if NoDup(p[i0..j0]) {
      i, j := i0, j0;
      PathSlice(g, p, i, j);
    } else {
      var a, b :| 0 <= a < b < j0 - i0 && p[i0..j0][a] == p[i0..j0][b];
      i, j := CycleInside(g, p, i0 + a, i0 + b);
    }
  }

  // Every node of r has a parent in r.
  ghost predicate ParentClosed(g: Graph, r: set<Node>) {
    forall x :: x in r ==> HasParentIn(g, r, x)
  }

  ghost predicate HasParentIn(g: Graph, r: set<Node>, x: Node) {
    exists y :: y in r && (y, x) in g
  }

  // In a parent-closed set, walks of any length end in each node.
  lemma {:induction false} BackWalk(g: Graph, r: set<Node>, n: Node, k: nat) returns (p: seq<Node>)
    requires n in r && ParentClosed(g, r)
    ensures IsPath(g, p) && |p| == k + 1 && p[k] == n && forall i :: 0 <= i <= k ==> p[i] in r
    decreases k
  {
    if k == 0 {
      p := [n];
    } else {
      assert HasParentIn(g, r, n);
      var y :| y in r && (y, n) in g;
      var q := BackWalk(g, r, y, k - 1);
      p := q + [n];
    }
  }

  // A finite set in which every node has a parent hangs off cycles that it contains.
  lemma ParentClosedFromCycle(g: Graph, r: set<Node>, n: Node) returns (c: seq<Node>)
    requires n in r && ParentClosed(g, r)
    ensures IsCycle(g, c) && forall i :: 0 <= i < |c| ==> c[i] in r
    ensures FromCycle(g, n)
  {
    var p := BackWalk(g, r, n, |r|);
    var i, j := RepeatInLongWalk(g, p, r);
    c := p[i..j];
    assert c[0] == p[i];
    PathSlice(g, p, i, |p|);
    assert PathBetween(g, p[i..|p|], p[i], n);
    assert c[0] in c && Reaches(g, c[0], n);
  }

  lemma RepeatInLongWalk(g: Graph, p: seq<Node>, r: set<Node>) returns (i: nat, j: nat)
    requires IsPath(g, p) && |r| < |p| && forall k :: 0 <= k < |p| ==> p[k] in r
    ensures i < j < |p| && IsCycle(g, p[i..j])
  {
    if NoDup(p) {
      Pigeonhole(p, r);
    }
    var i0, j0 :| 0 <= i0 < j0 < |p| && p[i0] == p[j0];
    i, j := CycleInside(g, p, i0, j0);
  }

  lemma WalkEnds(g: Graph, w: seq<Node>, k: nat)
    requires IsPath(g, w) && |w| == k + 1
    ensures EndsWalk(g, w[k], k)
  {
  }

  lemma DepthUnique(g: Graph, n: Node, j: nat, k: nat)
    requires HasDepth(g, n, j) && HasDepth(g, n, k)
    ensures j == k
  {
  }

  // An edge leads from a node to a strictly deeper one.
  lemma DepthGrowsAlongEdge(g: Graph, a: Node, b: Node, j: nat, k: nat)
    requires (a, b) in g && HasDepth(g, a, j) && HasDepth(g, b, k)
    ensures j < k
  {
    var p :| IsPath(g, p) && |p| == j + 1 && p[j] == a;
    var q := p + [b];
    assert IsPath(g, q) && |q| == j + 2 && q[j + 1] == b;
    assert EndsWalk(g, b, j + 1);
  }

  // Every node of a cycle has a parent on that cycle.
  lemma CycleParent(g: Graph, c: seq<Node>, n: Node) returns (y: Node)
    requires IsCycle(g, c) && n in c
    ensures y in c && (y, n) in g
  {
    var k :| 0 <= k < |c| && c[k] == n;
    y := if k == 0 then c[|c| - 1] else c[k - 1];
  }
}
