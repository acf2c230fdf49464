/** Enumeration of all cycles (`find_cycles`, bindings/python/topsort.py).  The generator is
    modelled by the list of cycles it yields. */
module FindCycles {
  import opened Graphs
  import opened Sequences
  import opened Rotations

  type ChildMap = map<Node, seq<Node>>

  function EdgesOf(m: ChildMap): Graph {
    set p, c | p in m && c in m[p] :: (p, c)
  }

  // Every node that occurs as a parent or as a child.
  function NodesOf(m: ChildMap): set<Node> {
    m.Keys + set p, c | p in m && c in m[p] :: c
  }

  ghost predicate SimplePath(g: Graph, p: seq<Node>) {
    IsPath(g, p) && NoDup(p)
  }

  // c was yielded, up to rotation.
  ghost predicate Known(cycles: seq<seq<Node>>, c: seq<Node>) {
    exists i :: 0 <= i < |cycles| && Rotation(cycles[i], c)
  }

  // Every cycle that runs through something reachable from s was yielded.
  ghost predicate Covered(g: Graph, cycles: seq<seq<Node>>, s: Node) {
    forall c, x :: IsCycle(g, c) && x in c && Reaches(g, s, x) ==> Known(cycles, c)
  }

  // Only cycles were yielded, and no two of them are rotations of each other.
  ghost predicate Sound(g: Graph, cycles: seq<seq<Node>>) {
    && (forall i :: 0 <= i < |cycles| ==> IsCycle(g, cycles[i]))
    && (forall i, j :: 0 <= i < j < |cycles| ==> !Rotation(cycles[i], cycles[j]))
  }

  // ----- Completeness of the search from one start

  // Each edge from the end of p back into p closes a cycle that was yielded.
  ghost predicate Closed(g: Graph, cycles: seq<seq<Node>>, p: seq<Node>)
    requires p != []
  {
    forall i :: 0 <= i < |p| && (p[|p| - 1], p[i]) in g ==> Known(cycles, p[i..])
  }

  // From a walk into a set, a simple path that meets the set only at its end.
  lemma {:induction false} EntryPath(g: Graph, p: seq<Node>, into: set<Node>) returns (w: seq<Node>)
    requires IsPath(g, p) && p[|p| - 1] in into
    ensures SimplePath(g, w) && w[0] == p[0] && w[|w| - 1] in into
    ensures forall i :: 0 <= i < |w| - 1 ==> w[i] !in into
    decreases |p|
  {
    if k :| 0 <= k < |p| - 1 && p[k] in into {
      PathSlice(g, p, 0, k + 1);
      w := EntryPath(g, p[..k + 1], into);
    } else if i, j :| 0 <= i < j < |p| && p[i] == p[j] {
      PathSlice(g, p, 0, i + 1);
      PathSlice(g, p, j, |p|);
      PathConcat(g, p[..i + 1], p[j..]);
      w := EntryPath(g, p[..i + 1] + p[j..][1..], into);
    } else {
      w := p;
    }
  }

  lemma RotateCycle(g: Graph, c: seq<Node>, k: nat) returns (d: seq<Node>)
    requires IsCycle(g, c) && k < |c|
    ensures IsCycle(g, d) && d[0] == c[k] && RotatedBy(c, d, k)
    ensures forall x :: x in d <==> x in c
  {
    d := c[k..] + c[..k];
    forall i, j | 0 <= i < |d| - 1 && j == i + 1 ensures (d[i], d[j]) in g {
      var n := |c|;
      var a := if i < n - k then k + i else i - (n - k);
      var b := if j < n - k then k + j else j - (n - k);
      assert d[i] == c[a] && d[j] == c[b];
      assert b == a + 1 || (a == n - 1 && b == 0);
    }
    assert d[|d| - 1] == if k == 0 then c[|c| - 1] else c[k - 1];
  }

  // A simple path that enters a cycle at its end can be continued round the cycle.
  lemma PathRoundCycle(g: Graph, w: seq<Node>, d: seq<Node>)
    requires SimplePath(g, w) && IsCycle(g, d) && w[|w| - 1] == d[0]
    requires forall i :: 0 <= i < |w| - 1 ==> w[i] !in d
    ensures SimplePath(g, w + d[1..])
    ensures (w + d[1..])[|w| - 1..] == d && (w + d[1..])[0] == w[0]
    ensures (w + d[1..])[|w| + |d| - 2] == d[|d| - 1]
  {
    PathConcat(g, w, d);
    var p := w + d[1..];
    forall i, j | 0 <= i < j < |p| ensures p[i] != p[j] {
      if j >= |w| {
        assert p[j] == d[j - |w| + 1];
        assert i >= |w| ==> p[i] == d[i - |w| + 1];
        assert p[j] in d;
      }
    }
  }

  // If every simple path from s is closed, every cycle within reach of s was yielded.
  lemma ClosedPathsCover(g: Graph, cycles: seq<seq<Node>>, s: Node)
    requires forall p :: SimplePath(g, p) && p[0] == s ==> Closed(g, cycles, p)
    ensures Covered(g, cycles, s)
  {
    forall c, x | IsCycle(g, c) && x in c && Reaches(g, s, x) ensures Known(cycles, c) {
      ReachedCycleKnown(g, cycles, s, c, x);
    }
  }

  lemma ReachedCycleKnown(g: Graph, cycles: seq<seq<Node>>, s: Node, c: seq<Node>, x: Node)
    requires forall p :: SimplePath(g, p) && p[0] == s ==> Closed(g, cycles, p)
    requires IsCycle(g, c) && x in c && Reaches(g, s, x)
    ensures Known(cycles, c)
  {
    var p :| PathBetween(g, p, s, x);
    var w := EntryPath(g, p, set y | y in c);
    var k :| 0 <= k < |c| && c[k] == w[|w| - 1];
    var d := RotateCycle(g, c, k);
    EnteredCycleKnown(g, cycles, s, w, d);
    KnownUpToRotation(cycles, c, d);
  }

  // The cycle entered at the end of w is closed by the simple path that goes once round it.
  lemma EnteredCycleKnown(g: Graph, cycles: seq<seq<Node>>, s: Node, w: seq<Node>, d: seq<Node>)
    requires forall p :: SimplePath(g, p) && p[0] == s ==> Closed(g, cycles, p)
    requires SimplePath(g, w) && w[0] == s && IsCycle(g, d) && w[|w| - 1] == d[0]
    requires forall i :: 0 <= i < |w| - 1 ==> w[i] !in d
    ensures Known(cycles, d)
  {
    PathRoundCycle(g, w, d);
    var round := w + d[1..];
    assert round[|w| - 1] == round[|w| - 1..][0];
    assert Closed(g, cycles, round);
  }

  lemma KnownUpToRotation(cycles: seq<seq<Node>>, c: seq<Node>, d: seq<Node>)
    requires Known(cycles, d) && Rotation(c, d)
    ensures Known(cycles, c)
  {
    var i :| 0 <= i < |cycles| && Rotation(cycles[i], d);
    RotationSymmetric(c, d);
    RotationTransitive(cycles[i], d, c);
  }

  // ----- Termination: the simple paths still to be visited

  function Children(m: ChildMap, n: Node): (kids: seq<Node>)
    ensures forall i :: 0 <= i < |kids| ==> (n, kids[i]) in EdgesOf(m) && kids[i] in NodesOf(m)
  {
    if n in m then m[n] else []
  }

  ghost predicate Inside(m: ChildMap, p: seq<Node>) {
    p != [] && NoDup(p) && forall i :: 0 <= i < |p| ==> p[i] in NodesOf(m)
  }

  // How many simple paths extend p, p included.
  ghost function Extensions(m: ChildMap, p: seq<Node>): nat
    requires Inside(m, p)
    decreases |NodesOf(m)| - |p|, 1, 0
  {
    1 + ExtensionsBy(m, p, Children(m, p[|p| - 1]))
  }

  // ... by continuing to one of the given children.
  ghost function ExtensionsBy(m: ChildMap, p: seq<Node>, kids: seq<Node>): nat
    requires Inside(m, p) && forall i :: 0 <= i < |kids| ==> kids[i] in NodesOf(m)
    decreases |NodesOf(m)| - |p|, 0, |kids|
  {
    if kids == [] then 0
    else
      var rest := ExtensionsBy(m, p, kids[1..]);
      if kids[0] in p then rest
      else
        Pigeonhole(p + [kids[0]], NodesOf(m));
        Extensions(m, p + [kids[0]]) + rest
  }

  ghost predicate KidsIn(m: ChildMap, kids: seq<Node>) {
    forall i :: 0 <= i < |kids| ==> kids[i] in NodesOf(m)
  }

  // ... by continuing to a child from the j-th on.
  ghost function ExtensionsFrom(m: ChildMap, p: seq<Node>, kids: seq<Node>, j: nat): nat
    requires Inside(m, p) && KidsIn(m, kids) && j <= |kids|
  {
    ExtensionsBy(m, p, kids[j..])
  }

  // The work left on the stack.
  ghost function StackWeight(m: ChildMap, paths: seq<seq<Node>>): nat
    requires forall i :: 0 <= i < |paths| ==> Inside(m, paths[i])
  {
    if paths == [] then 0
    else StackWeight(m, paths[..|paths| - 1]) + Extensions(m, paths[|paths| - 1])
  }

  lemma PushWeight(m: ChildMap, paths: seq<seq<Node>>, p: seq<Node>)
    requires Inside(m, p) && forall i :: 0 <= i < |paths| ==> Inside(m, paths[i])
    ensures StackWeight(m, paths + [p]) == StackWeight(m, paths) + Extensions(m, p)
  {
    assert (paths + [p])[..|paths|] == paths;
  }

  // ----- The search

  // Everything on the stack is a simple path from s.
  ghost predicate Frontier(m: ChildMap, s: Node, paths: seq<seq<Node>>) {
    forall i :: 0 <= i < |paths| ==> Inside(m, paths[i]) && SimplePath(EdgesOf(m), paths[i]) && paths[i][0] == s
  }

  // p or a beginning of it is still on the stack.
  ghost predicate Pending(paths: seq<seq<Node>>, p: seq<Node>) {
    exists i :: 0 <= i < |paths| && paths[i] <= p
  }

  // Every simple path from s is pending or closed.
  ghost predicate Explored(m: ChildMap, s: Node, paths: seq<seq<Node>>, cycles: seq<seq<Node>>) {
    forall p :: SimplePath(EdgesOf(m), p) && p[0] == s ==> Pending(paths, p) || Closed(EdgesOf(m), cycles, p)
  }

  // The same while `path` is being expanded and `kids` are the children not yet looked at.
  ghost predicate Expanding(m: ChildMap, s: Node, paths: seq<seq<Node>>, cycles: seq<seq<Node>>, path: seq<Node>,
                            kids: seq<Node>)
  {
    forall p :: SimplePath(EdgesOf(m), p) && p[0] == s ==>
      Pending(paths, p) || Closed(EdgesOf(m), cycles, p) || Continues(path, kids, p)
  }

  ghost predicate Continues(path: seq<Node>, kids: seq<Node>, p: seq<Node>) {
    path <= p && (p == path || p[|path|] in kids)
  }

  // The cycles that the children looked at so far close with `path` are known.
  ghost predicate KnownFor(m: ChildMap, cycles: seq<seq<Node>>, path: seq<Node>, kids: seq<Node>)
    requires path != []
  {
    forall i :: 0 <= i < |path| && path[i] in Children(m, path[|path| - 1]) && path[i] !in kids ==>
      Known(cycles, path[i..])
  }

  // Only nodes reachable from s were marked as visited.
  ghost predicate Marked(m: ChildMap, s: Node, before: set<Node>, visited: set<Node>) {
    before <= visited && forall v :: v in visited && v !in before ==> Reaches(EdgesOf(m), s, v)
  }

  // The duplicate check: yield the cycle unless a rotation of it was yielded before.
  method YieldIfNew(m: ChildMap, cycles: seq<seq<Node>>, cycle: seq<Node>) returns (cycles': seq<seq<Node>>)
    requires Sound(EdgesOf(m), cycles) && IsCycle(EdgesOf(m), cycle)
    ensures cycles <= cycles' && Sound(EdgesOf(m), cycles') && Known(cycles', cycle)
  {
    for i := 0 to |cycles|
      invariant forall j :: 0 <= j < i ==> !Rotation(cycles[j], cycle)
    {
      var isDup := IsRotated(cycles[i], cycle);
      if isDup {
        return cycles;
      }
    }
    cycles' := cycles + [cycle];
    RotationReflexive(cycle);
    assert cycles'[|cycles|] == cycle;
  }

  lemma ClosingCycle(m: ChildMap, path: seq<Node>, i: nat)
    requires SimplePath(EdgesOf(m), path) && i < |path|
    requires path[i] in Children(m, path[|path| - 1])
    ensures IsCycle(EdgesOf(m), path[i..])
  {
    PathSlice(EdgesOf(m), path, i, |path|);
    assert path[i..|path|] == path[i..];
    var k :| 0 <= k < |Children(m, path[|path| - 1])| && Children(m, path[|path| - 1])[k] == path[i];
  }

  lemma LongerPath(m: ChildMap, path: seq<Node>, child: Node)
    requires Inside(m, path) && SimplePath(EdgesOf(m), path)
    requires child in Children(m, path[|path| - 1]) && child !in path
    ensures Inside(m, path + [child]) && SimplePath(EdgesOf(m), path + [child])
    ensures Reaches(EdgesOf(m), path[0], child)
  {
    var k :| 0 <= k < |Children(m, path[|path| - 1])| && Children(m, path[|path| - 1])[k] == child;
    assert PathBetween(EdgesOf(m), path + [child], path[0], child);
  }

  lemma Mark(m: ChildMap, s: Node, before: set<Node>, visited: set<Node>, child: Node)
    requires Marked(m, s, before, visited) && Reaches(EdgesOf(m), s, child)
    ensures Marked(m, s, before, visited + {child})
  {
  }

  lemma FrontierPush(m: ChildMap, s: Node, paths: seq<seq<Node>>, p: seq<Node>)
    requires Frontier(m, s, paths) && Inside(m, p) && SimplePath(EdgesOf(m), p) && p[0] == s
    ensures Frontier(m, s, paths + [p])
  {
  }

  // One child looked at: in the path, its cycle is known; otherwise the longer path is pushed.
  lemma ChildDone(m: ChildMap, s: Node, paths: seq<seq<Node>>, cycles: seq<seq<Node>>, paths': seq<seq<Node>>,
                  cycles': seq<seq<Node>>, path: seq<Node>, kids: seq<Node>)
    requires path != [] && kids != [] && Expanding(m, s, paths, cycles, path, kids) && KnownFor(m, cycles, path, kids)
    requires paths <= paths' && cycles <= cycles'
    requires NoDup(path)
    requires forall i :: 0 <= i < |path| && path[i] == kids[0] ==> Known(cycles', path[i..])
    requires kids[0] !in path ==> paths' == paths + [path + [kids[0]]]
    ensures Expanding(m, s, paths', cycles', path, kids[1..]) && KnownFor(m, cycles', path, kids[1..])
  {
    forall p | SimplePath(EdgesOf(m), p) && p[0] == s
      ensures Pending(paths', p) || Closed(EdgesOf(m), cycles', p) || Continues(path, kids[1..], p)
    {
      if Pending(paths, p) {
        var i :| 0 <= i < |paths| && paths[i] <= p;
        assert paths'[i] == paths[i];
      } else if Closed(EdgesOf(m), cycles, p) {
        ClosedLonger(EdgesOf(m), cycles, cycles', p);
      } else {
        ContinuesTail(paths, paths', path, kids, p);
      }
    }
    forall i | 0 <= i < |path| && path[i] in Children(m, path[|path| - 1]) && path[i] !in kids[1..]
      ensures Known(cycles', path[i..])
    {
      if path[i] != kids[0] {
        assert kids == [kids[0]] + kids[1..];
      }
    }
  }

  lemma ClosedLonger(g: Graph, cycles: seq<seq<Node>>, more: seq<seq<Node>>, p: seq<Node>)
    requires p != [] && Closed(g, cycles, p) && cycles <= more
    ensures Closed(g, more, p)
  {
    forall i | 0 <= i < |p| && (p[|p| - 1], p[i]) in g ensures Known(more, p[i..]) {
    }
  }

  lemma ContinuesTail(paths: seq<seq<Node>>, paths': seq<seq<Node>>, path: seq<Node>, kids: seq<Node>, p: seq<Node>)
    requires kids != [] && NoDup(p) && Continues(path, kids, p)
    requires kids[0] !in path ==> paths' == paths + [path + [kids[0]]]
    ensures Pending(paths', p) || Continues(path, kids[1..], p)
  {
    if p != path && p[|path|] == kids[0] {
      assert forall i :: 0 <= i < |path| ==> path[i] == p[i];
      assert kids[0] !in path;
      assert paths'[|paths|] == path + [kids[0]];
      assert path + [kids[0]] <= p;
    } else {
      assert kids == [kids[0]] + kids[1..];
    }
  }

  // path.index(x)
  function IndexOf(p: seq<Node>, x: Node): (i: nat)
    requires x in p
    ensures i < |p| && p[i] == x && x !in p[..i]
  {
    if p[0] == x then 0 else 1 + IndexOf(p[1..], x)
  }

  lemma WeightStep(m: ChildMap, path: seq<Node>, kids: seq<Node>, j: nat)
    requires Inside(m, path) && KidsIn(m, kids) && j < |kids|
    requires kids[j] !in path ==> Inside(m, path + [kids[j]])
    ensures ExtensionsFrom(m, path, kids, j) == ExtensionsFrom(m, path, kids, j + 1)
      + if kids[j] in path then 0 else Extensions(m, path + [kids[j]])
  {
    assert kids[j..][1..] == kids[j + 1..];
  }

  // One child of the node at the end of the popped path.
  method TakeChild(m: ChildMap, ghost s: Node, path: seq<Node>, kids: seq<Node>, j: nat, paths0: seq<seq<Node>>,
                   cycles0: seq<seq<Node>>, visited0: set<Node>, ghost before: set<Node>)
    returns (paths: seq<seq<Node>>, cycles: seq<seq<Node>>, visited: set<Node>)
    requires Frontier(m, s, paths0) && Sound(EdgesOf(m), cycles0) && Marked(m, s, before, visited0)
    requires Inside(m, path) && SimplePath(EdgesOf(m), path) && path[0] == s
    requires kids == Children(m, path[|path| - 1]) && j < |kids|
    requires Expanding(m, s, paths0, cycles0, path, kids[j..]) && KnownFor(m, cycles0, path, kids[j..])
    ensures Frontier(m, s, paths) && Sound(EdgesOf(m), cycles) && cycles0 <= cycles && Marked(m, s, before, visited)
    ensures Expanding(m, s, paths, cycles, path, kids[j + 1..]) && KnownFor(m, cycles, path, kids[j + 1..])
    ensures StackWeight(m, paths) + ExtensionsFrom(m, path, kids, j + 1)
      == StackWeight(m, paths0) + ExtensionsFrom(m, path, kids, j)
  {
    paths, cycles, visited := paths0, cycles0, visited0;
    var child := kids[j];
    if child in path {
      var at := IndexOf(path, child);
      ClosingCycle(m, path, at);
      cycles := YieldIfNew(m, cycles, path[at..]);
    } else {
      LongerPath(m, path, child);
      FrontierPush(m, s, paths, path + [child]);
      PushWeight(m, paths, path + [child]);
      paths := paths + [path + [child]];
      Mark(m, s, before, visited, child);
      visited := visited + {child};
    }
    WeightStep(m, path, kids, j);
    ChildDone(m, s, paths0, cycles0, paths, cycles, path, kids[j..]);
    DropOne(kids, j);
  }

  lemma DropOne<T>(s: seq<T>, j: nat)
    requires j < |s|
    ensures s[j..][1..] == s[j + 1..] && s[j..][0] == s[j]
  {
  }

  // The loop over the children of the popped path.
  method Expand(m: ChildMap, ghost s: Node, path: seq<Node>, paths0: seq<seq<Node>>, cycles0: seq<seq<Node>>,
                visited0: set<Node>)
    returns (paths: seq<seq<Node>>, cycles: seq<seq<Node>>, visited: set<Node>)
    requires path != [] && path[|path| - 1] in m
    requires Frontier(m, s, paths0 + [path]) && Sound(EdgesOf(m), cycles0)
    requires Expanding(m, s, paths0, cycles0, path, m[path[|path| - 1]])
    ensures Frontier(m, s, paths) && Sound(EdgesOf(m), cycles) && cycles0 <= cycles
    ensures Explored(m, s, paths, cycles)
    ensures Marked(m, s, visited0, visited)
    ensures Inside(m, path) && Frontier(m, s, paths0)
    ensures StackWeight(m, paths) < StackWeight(m, paths0) + Extensions(m, path)
  {
    FrontierFront(m, s, paths0, path);
    paths, cycles, visited := paths0, cycles0, visited0;
    var parent := path[|path| - 1];
    var kids := m[parent];
    assert kids == Children(m, parent) && kids[0..] == kids;
    for j := 0 to |kids|
      invariant Frontier(m, s, paths) && Sound(EdgesOf(m), cycles) && cycles0 <= cycles
      invariant Expanding(m, s, paths, cycles, path, kids[j..]) && KnownFor(m, cycles, path, kids[j..])
      invariant Marked(m, s, visited0, visited)
      invariant StackWeight(m, paths) + ExtensionsFrom(m, path, kids, j)
        == StackWeight(m, paths0) + ExtensionsFrom(m, path, kids, 0)
    {
      paths, cycles, visited := TakeChild(m, s, path, kids, j, paths, cycles, visited, visited0);
    }
    assert kids[|kids|..] == [];
    ExpandedExplored(m, s, paths, cycles, path);
  }

  lemma ExpandedExplored(m: ChildMap, s: Node, paths: seq<seq<Node>>, cycles: seq<seq<Node>>, path: seq<Node>)
    requires path != [] && Expanding(m, s, paths, cycles, path, []) && KnownFor(m, cycles, path, [])
    ensures Explored(m, s, paths, cycles)
  {
    assert Closed(EdgesOf(m), cycles, path);
  }

  lemma FrontierFront(m: ChildMap, s: Node, paths: seq<seq<Node>>, path: seq<Node>)
    requires Frontier(m, s, paths + [path])
    ensures Frontier(m, s, paths) && Inside(m, path) && SimplePath(EdgesOf(m), path) && path[0] == s
  {
    assert (paths + [path])[|paths|] == path;
    forall i | 0 <= i < |paths| ensures Inside(m, paths[i]) && SimplePath(EdgesOf(m), paths[i]) && paths[i][0] == s {
      assert (paths + [path])[i] == paths[i];
    }
  }

  // All simple paths from one start.
  method SearchFrom(m: ChildMap, s: Node, cycles0: seq<seq<Node>>, visited0: set<Node>)
    returns (cycles: seq<seq<Node>>, visited: set<Node>)
    requires s in m && Sound(EdgesOf(m), cycles0)
    ensures Sound(EdgesOf(m), cycles) && cycles0 <= cycles && Covered(EdgesOf(m), cycles, s)
    ensures Marked(m, s, visited0, visited)
  {
    cycles, visited := cycles0, visited0;
    var paths := [[s]];
    assert Explored(m, s, paths, cycles) by {
      forall p | SimplePath(EdgesOf(m), p) && p[0] == s ensures Pending(paths, p) {
        assert paths[0] <= p;
      }
    }
    while paths != []
      invariant Frontier(m, s, paths) && Sound(EdgesOf(m), cycles) && cycles0 <= cycles
      invariant Explored(m, s, paths, cycles)
      invariant Marked(m, s, visited0, visited)
      decreases StackWeight(m, paths)
    {
      var path := paths[|paths| - 1];
      PopExpanding(m, s, paths, cycles);
      paths := paths[..|paths| - 1];
      if path[|path| - 1] in m {
        paths, cycles, visited := Expand(m, s, path, paths, cycles, visited);
      } else {
        LeafExplored(m, s, paths, cycles, path);
      }
    }
    assert forall p :: !Pending([], p);
    ClosedPathsCover(EdgesOf(m), cycles, s);
  }

  lemma PopExpanding(m: ChildMap, s: Node, paths: seq<seq<Node>>, cycles: seq<seq<Node>>)
    requires paths != [] && Frontier(m, s, paths) && Explored(m, s, paths, cycles)
    ensures var path := paths[|paths| - 1];
      Expanding(m, s, paths[..|paths| - 1], cycles, path, Children(m, path[|path| - 1]))
  {
    var path, below := paths[|paths| - 1], paths[..|paths| - 1];
    assert path != [] && paths == below + [path];
    forall p | SimplePath(EdgesOf(m), p) && p[0] == s && Pending(paths, p)
      ensures Pending(below, p) || Continues(path, Children(m, path[|path| - 1]), p)
    {
      PopPending(m, below, path, p);
    }
  }

  lemma PopPending(m: ChildMap, below: seq<seq<Node>>, path: seq<Node>, p: seq<Node>)
    requires path != [] && IsPath(EdgesOf(m), p) && Pending(below + [path], p)
    ensures Pending(below, p) || Continues(path, Children(m, path[|path| - 1]), p)
  {
    var i :| 0 <= i < |below + [path]| && (below + [path])[i] <= p;
    if i < |below| {
      assert below[i] <= p;
    } else {
      PathContinues(m, path, p);
    }
  }

  lemma PathContinues(m: ChildMap, path: seq<Node>, p: seq<Node>)
    requires path != [] && path <= p && IsPath(EdgesOf(m), p)
    ensures Continues(path, Children(m, path[|path| - 1]), p)
  {
    if p != path {
      assert (p[|path| - 1], p[|path|]) in EdgesOf(m);
    }
  }

  // A node that is no key of the map has no children: its path is closed.
  lemma LeafExplored(m: ChildMap, s: Node, paths: seq<seq<Node>>, cycles: seq<seq<Node>>, path: seq<Node>)
    requires path != [] && path[|path| - 1] !in m
    requires Expanding(m, s, paths, cycles, path, Children(m, path[|path| - 1]))
    ensures Explored(m, s, paths, cycles)
  {
    assert Closed(EdgesOf(m), cycles, path);
  }

  method FindCycles(m: ChildMap) returns (cycles: seq<seq<Node>>)
    ensures forall i :: 0 <= i < |cycles| ==> IsCycle(EdgesOf(m), cycles[i])
    ensures forall i, j :: 0 <= i < j < |cycles| ==> !Rotation(cycles[i], cycles[j])
    ensures forall c :: IsCycle(EdgesOf(m), c) ==> exists i :: 0 <= i < |cycles| && Rotation(cycles[i], c)
    ensures cycles == [] <==> Acyclic(EdgesOf(m))
  {
    cycles := [];
    var visited: set<Node> := {};
    var todo := m.Keys;
    while todo != {}
      invariant todo <= m.Keys
      invariant Sound(EdgesOf(m), cycles)
      invariant forall p :: p in m && p !in todo ==> Covered(EdgesOf(m), cycles, p)
      invariant forall v :: v in visited ==> Covered(EdgesOf(m), cycles, v)
      decreases todo
    {
      var parent :| parent in todo;
      todo := todo - {parent};
      if parent !in visited {
        ghost var known, seen := cycles, visited;
        cycles, visited := SearchFrom(m, parent, cycles, visited);
        CoverageGrows(m, known, cycles, todo + {parent}, seen, visited, parent);
      }
    }
    forall c | IsCycle(EdgesOf(m), c) ensures Known(cycles, c) {
      ReachesSelf(EdgesOf(m), c[|c| - 1]);
      assert (c[|c| - 1], c[0]) in EdgesOf(m);
      assert Covered(EdgesOf(m), cycles, c[|c| - 1]);
    }
    assert cycles != [] ==> IsCycle(EdgesOf(m), cycles[0]);
  }

  lemma CoverageGrows(m: ChildMap, known: seq<seq<Node>>, cycles: seq<seq<Node>>, todo: set<Node>, seen: set<Node>,
                      visited: set<Node>, s: Node)
    requires known <= cycles && Covered(EdgesOf(m), cycles, s)
    requires forall p :: p in m && p !in todo ==> Covered(EdgesOf(m), known, p)
    requires forall v :: v in seen ==> Covered(EdgesOf(m), known, v)
    requires Marked(m, s, seen, visited)
    ensures forall p :: p in m && p !in todo ==> Covered(EdgesOf(m), cycles, p)
    ensures forall v :: v in visited ==> Covered(EdgesOf(m), cycles, v)
  {
    forall p | Covered(EdgesOf(m), known, p) ensures Covered(EdgesOf(m), cycles, p) {
      forall c, x | IsCycle(EdgesOf(m), c) && x in c && Reaches(EdgesOf(m), p, x) ensures Known(cycles, c) {
      }
    }
    forall v | v in visited && v !in seen ensures Covered(EdgesOf(m), cycles, v) {
      forall c, x | IsCycle(EdgesOf(m), c) && x in c && Reaches(EdgesOf(m), v, x) ensures Known(cycles, c) {
        ReachesTransitive(EdgesOf(m), s, v, x);
      }
    }
  }
}
