/** The level-by-level sort (`topsort_levels`, `topsort_levels_core`), whose generator is modelled
    by the list of levels it yields before it stops or raises. */
module Levels {
  import opened Graphs
  import opened Sequences
  import opened Topsort

  // Stopped normally, or raised CycleError with what is left of the tables.
  datatype LevelsOutcome = Levelled(levels: seq<seq<Node>>) | LevelsCycleError(levels: seq<seq<Node>>, rest: Tables)

  // ----- Levels as a layering of the graph

  ghost function Elements(levels: seq<seq<Node>>): set<Node> {
    set k, n | 0 <= k < |levels| && n in levels[k] :: n
  }

  ghost function SetOf(s: seq<Node>): set<Node> {
    set x | x in s
  }

  ghost predicate InLevelBelow(levels: seq<seq<Node>>, n: Node, k: nat) {
    exists j :: 0 <= j < k && j < |levels| && n in levels[j]
  }

  // Parents lie in lower levels, and beyond level 0 one of them in the level just below.
  ghost predicate Layered(g: Graph, levels: seq<seq<Node>>) {
    && (forall k, n, p {:trigger n in levels[k], InLevelBelow(levels, p, k)} ::
          0 <= k < |levels| && n in levels[k] && (p, n) in g ==> InLevelBelow(levels, p, k))
    && (forall k, n {:trigger ParentJustBelow(g, levels, k, n)} ::
          0 < k < |levels| && n in levels[k] ==> ParentJustBelow(g, levels, k, n))
  }

  ghost predicate ParentJustBelow(g: Graph, levels: seq<seq<Node>>, k: nat, n: Node) {
    0 < k <= |levels| && exists p :: p in levels[k - 1] && (p, n) in g
  }

  lemma {:induction false} LevelHasWalk(g: Graph, levels: seq<seq<Node>>, k: nat, n: Node)
    requires Layered(g, levels) && k < |levels| && n in levels[k]
    ensures EndsWalk(g, n, k)
    decreases k
  {
    if k == 0 {
      assert IsPath(g, [n]) && [n][0] == n;
    } else {
      assert ParentJustBelow(g, levels, k, n);
      var p :| p in levels[k - 1] && (p, n) in g;
      LevelHasWalk(g, levels, k - 1, p);
      var w :| IsPath(g, w) && |w| == k && w[k - 1] == p;
      assert IsPath(g, w + [n]) && (w + [n])[k] == n;
    }
  }

  lemma {:induction false} LevelBoundsWalks(g: Graph, levels: seq<seq<Node>>, k: nat, n: Node, m: nat)
    requires Layered(g, levels) && k < |levels| && n in levels[k] && EndsWalk(g, n, m)
    ensures m <= k
    decreases m
  {
    if m > 0 {
      var w :| IsPath(g, w) && |w| == m + 1 && w[m] == n;
      var p := w[m - 1];
      assert (p, n) in g && n in levels[k];
      assert InLevelBelow(levels, p, k);
      var j :| 0 <= j < k && p in levels[j];
      PathSlice(g, w, 0, m);
      assert IsPath(g, w[..m]) && |w[..m]| == m && w[..m][m - 1] == p;
      LevelBoundsWalks(g, levels, j, p, m - 1);
    }
  }

  lemma LevelIsDepth(g: Graph, levels: seq<seq<Node>>, k: nat, n: Node)
    requires Layered(g, levels) && k < |levels| && n in levels[k]
    ensures HasDepth(g, n, k)
  {
    LevelHasWalk(g, levels, k, n);
    forall m: nat | EndsWalk(g, n, m) ensures m <= k {
      LevelBoundsWalks(g, levels, k, n, m);
    }
  }

  lemma CycleNodes(g: Graph, c: seq<Node>) returns (onCycle: set<Node>)
    requires IsCycle(g, c)
    ensures onCycle == SetOf(c) && ParentClosed(g, onCycle)
  {
    onCycle := SetOf(c);
    forall x | x in onCycle ensures HasParentIn(g, onCycle, x) {
      var y := CycleParent(g, c, x);
    }
  }

  // Behind a node that hangs off a cycle there are walks of every length.
  lemma LongWalk(g: Graph, n: Node, k: nat) returns (m: nat)
    requires FromCycle(g, n)
    ensures m > k && EndsWalk(g, n, m)
  {
    var c, a :| IsCycle(g, c) && a in c && Reaches(g, a, n);
    var onCycle := CycleNodes(g, c);
    var w := BackWalk(g, onCycle, a, k + 1);
    var p :| PathBetween(g, p, a, n);
    PathConcat(g, w, p);
    m := k + |p|;
    var whole := w + p[1..];
    assert |whole| == m + 1 && whole[m] == n;
    WalkEnds(g, whole, m);
  }

  lemma DepthOffCycle(g: Graph, n: Node, k: nat)
    requires HasDepth(g, n, k)
    ensures !FromCycle(g, n)
  {
    if FromCycle(g, n) {
      var m := LongWalk(g, n, k);
      assert false;
    }
  }

  // ----- topsort_levels_core

  ghost predicate ParentsGone(pairs: Pairs, gone: set<Node>, n: Node) {
    forall p :: (p, n) in EdgesOf(pairs) ==> p in gone
  }

  // The parents of removed nodes are removed.
  ghost predicate ParentClosedUnder(pairs: Pairs, gone: set<Node>) {
    forall n :: n in gone ==> ParentsGone(pairs, gone, n)
  }

  // Lower the counts of the children of one node of the level.
  method LowerCounts(numParents0: map<Node, int>, todo: seq<Node>, ghost nodes: set<Node>, ghost pairs: Pairs,
                     ghost gone: set<Node>)
    returns (numParents: map<Node, int>)
    requires Counting(numParents0, nodes, pairs, gone, todo)
    requires forall c :: c in todo ==> c in numParents0
    ensures Counting(numParents, nodes, pairs, gone, [])
  {
    numParents := numParents0;
    for m := 0 to |todo|
      invariant Counting(numParents, nodes, pairs, gone, todo[m..])
      invariant numParents.Keys == numParents0.Keys
    {
      CountingStep(numParents, nodes, pairs, gone, todo[m..]);
      assert todo[m..][1..] == todo[m + 1..];
      numParents := numParents[todo[m] := numParents[todo[m]] - 1];
    }
    assert todo[|todo|..] == [];
  }

  // Take one node of the level out of both tables.
  method RemoveNode(t: Tables, p: Node, ghost nodes: set<Node>, ghost pairs: Pairs, ghost gone: set<Node>)
    returns (t': Tables)
    requires NodesOf(pairs) <= nodes && Describes(t, nodes, pairs, gone) && p in t.numParents
    requires ParentClosedUnder(pairs, gone) && (p, p) !in EdgesOf(pairs)
    ensures Describes(t', nodes, pairs, gone + {p})
  {
    StartCounting(t, nodes, pairs, gone, p);
    ghost var kids := ChildrenOf(pairs, p);
    assert Lookup(t.children, p) == kids;
    forall c | c in kids ensures c in t.numParents - {p} {
      ChildrenOfMember(pairs, p, c);
    }
    var numParents, children := t.numParents - {p}, t.children;
    if p in children {
      numParents := LowerCounts(numParents, children[p], nodes, pairs, gone + {p});
      children := children - {p};
    }
    CloseTables(t, numParents, nodes, pairs, gone, p);
    assert children == t.children - {p};
    t' := Tables(numParents, children);
  }

  lemma OneMoreGone(gone: set<Node>, level: seq<Node>, i: nat)
    requires i < |level|
    ensures gone + SetOf(level[..i + 1]) == gone + SetOf(level[..i]) + {level[i]}
  {
    assert level[..i + 1] == level[..i] + [level[i]];
  }

  lemma ClosedWithOneMore(pairs: Pairs, gone: set<Node>, n: Node)
    requires ParentClosedUnder(pairs, gone) && ParentsGone(pairs, gone, n)
    ensures ParentClosedUnder(pairs, gone + {n})
  {
  }

  method RemoveLevel(t0: Tables, level: seq<Node>, ghost nodes: set<Node>, ghost pairs: Pairs, ghost gone: set<Node>)
    returns (t: Tables)
    requires NodesOf(pairs) <= nodes && Describes(t0, nodes, pairs, gone) && ParentClosedUnder(pairs, gone)
    requires NoDup(level) && forall n :: n in level ==> n in t0.numParents && ParentsGone(pairs, gone, n)
    ensures Describes(t, nodes, pairs, gone + SetOf(level))
  {
    t := t0;
    ghost var out := gone;
    for i := 0 to |level|
      invariant out == gone + SetOf(level[..i])
      invariant Describes(t, nodes, pairs, out) && ParentClosedUnder(pairs, out)
    {
      OneMoreGone(gone, level, i);
      NextOfLevel(t, t0, level, nodes, pairs, gone, i);
      t := RemoveNode(t, level[i], nodes, pairs, out);
      ClosedWithOneMore(pairs, out, level[i]);
      out := out + {level[i]};
    }
    TakeAll(level);
  }

  lemma NextOfLevel(t: Tables, t0: Tables, level: seq<Node>, nodes: set<Node>, pairs: Pairs, gone: set<Node>, i: nat)
    requires i < |level| && NoDup(level) && forall n :: n in level ==> n in t0.numParents && ParentsGone(pairs, gone, n)
    requires Describes(t0, nodes, pairs, gone) && Describes(t, nodes, pairs, gone + SetOf(level[..i]))
    ensures level[i] in t.numParents && ParentsGone(pairs, gone + SetOf(level[..i]), level[i])
    ensures (level[i], level[i]) !in EdgesOf(pairs)
  {
    var n := level[i];
    assert n in level && ParentsGone(pairs, gone, n);
    assert n !in level[..i];
  }

  ghost predicate LevelState(t: Tables, nodes: set<Node>, pairs: Pairs, levels: seq<seq<Node>>) {
    && NodesOf(pairs) <= nodes
    && Describes(t, nodes, pairs, Elements(levels))
    && Elements(levels) <= nodes
    && ParentClosedUnder(pairs, Elements(levels))
    && Layered(EdgesOf(pairs), levels)
    && (forall k :: 0 <= k < |levels| ==> NoDup(levels[k]) && levels[k] != [])
    // whatever is left was still blocked when the latest level was taken
    && (levels != [] ==> forall n :: n in t.numParents ==> !ParentsGone(pairs, Elements(levels[..|levels| - 1]), n))
  }

  ghost predicate IsZeroLevel(t: Tables, level: seq<Node>) {
    NoDup(level) && forall n :: n in level <==> n in t.numParents && t.numParents[n] == 0
  }

  lemma ElementsExtend(levels: seq<seq<Node>>, level: seq<Node>)
    ensures Elements(levels + [level]) == Elements(levels) + SetOf(level)
    ensures (levels + [level])[..|levels|] == levels
  {
    var longer := levels + [level];
    forall n | n in Elements(levels) + SetOf(level) ensures n in Elements(longer) {
      if n in Elements(levels) {
        var k :| 0 <= k < |levels| && n in levels[k];
        assert n in longer[k];
      } else {
        assert n in longer[|levels|];
      }
    }
  }

  lemma ZeroLevelParents(t: Tables, nodes: set<Node>, pairs: Pairs, gone: set<Node>, level: seq<Node>)
    requires Describes(t, nodes, pairs, gone) && IsZeroLevel(t, level)
    ensures forall n :: n in t.numParents ==> (n in level <==> ParentsGone(pairs, gone, n))
  {
    forall n | n in t.numParents ensures n in level <==> ParentsGone(pairs, gone, n) {
      CountZeroParents(pairs, n, gone);
    }
  }

  lemma MemberLevel(levels: seq<seq<Node>>, n: Node) returns (k: nat)
    requires n in Elements(levels)
    ensures k < |levels| && n in levels[k]
  {
    k :| 0 <= k < |levels| && n in levels[k];
  }

  lemma LayeredExtend(g: Graph, levels: seq<seq<Node>>, level: seq<Node>)
    requires Layered(g, levels)
    requires forall n, p :: n in level && (p, n) in g ==> p in Elements(levels)
    requires levels != [] ==> forall n :: n in level ==> ParentJustBelow(g, levels, |levels|, n)
    ensures Layered(g, levels + [level])
  {
    var longer := levels + [level];
    forall k, n, p | 0 <= k < |longer| && n in longer[k] && (p, n) in g ensures InLevelBelow(longer, p, k) {
      if k < |levels| {
        assert n in levels[k] && InLevelBelow(levels, p, k);
        var j :| 0 <= j < k && j < |levels| && p in levels[j];
        assert p in longer[j];
      } else {
        var j := MemberLevel(levels, p);
        assert p in longer[j];
      }
    }
    forall k, n | 0 < k < |longer| && n in longer[k] ensures ParentJustBelow(g, longer, k, n) {
      assert ParentJustBelow(g, levels, k, n);
      assert longer[k - 1] == levels[k - 1];
    }
  }

  lemma NextLevel(t: Tables, t': Tables, nodes: set<Node>, pairs: Pairs, levels: seq<seq<Node>>, level: seq<Node>)
    requires LevelState(t, nodes, pairs, levels) && IsZeroLevel(t, level) && level != []
    requires Describes(t', nodes, pairs, Elements(levels) + SetOf(level))
    ensures LevelState(t', nodes, pairs, levels + [level])
  {
    var gone := Elements(levels);
    ElementsExtend(levels, level);
    ZeroLevelParents(t, nodes, pairs, gone, level);
    if levels != [] {
      var before := levels[..|levels| - 1];
      assert levels == before + [levels[|levels| - 1]];
      ElementsExtend(before, levels[|levels| - 1]);
      forall n | n in level ensures ParentJustBelow(EdgesOf(pairs), levels, |levels|, n) {
        assert !ParentsGone(pairs, Elements(before), n) && ParentsGone(pairs, gone, n);
        var p :| (p, n) in EdgesOf(pairs) && p !in Elements(before);
        assert p in levels[|levels| - 1];
      }
    }
    LayeredExtend(EdgesOf(pairs), levels, level);
    assert ParentClosedUnder(pairs, gone + SetOf(level)) by {
      forall n | n in gone + SetOf(level) ensures ParentsGone(pairs, gone + SetOf(level), n) {
        assert n in gone ==> ParentsGone(pairs, gone, n);
      }
    }
  }

  lemma LevelsEnd(t: Tables, nodes: set<Node>, pairs: Pairs, levels: seq<seq<Node>>)
    requires LevelState(t, nodes, pairs, levels) && IsZeroLevel(t, [])
    ensures LevelsByDepth(nodes, pairs, levels)
    ensures t.numParents == map[] <==> Acyclic(EdgesOf(pairs))
  {
    var g, rest := EdgesOf(pairs), nodes - Elements(levels);
    assert ParentClosed(g, rest) by {
      forall n | n in rest ensures HasParentIn(g, rest, n) {
        assert t.numParents[n] != 0;
        InCountPositive(pairs, n, Elements(levels));
        var k :| 0 <= k < |pairs| && pairs[k].1 == n && pairs[k].0 !in Elements(levels);
        assert pairs[k] in g && pairs[k].0 in NodesOf(pairs);
      }
    }
    forall n, k | 0 <= k < |levels| ensures n in levels[k] <==> n in nodes && !FromCycle(g, n) && HasDepth(g, n, k) {
      if n in levels[k] {
        assert n in Elements(levels);
        LevelIsDepth(g, levels, k, n);
        DepthOffCycle(g, n, k);
      } else if n in nodes && !FromCycle(g, n) && HasDepth(g, n, k) {
        OffCyclesInLevels(g, nodes, levels, n);
        var j := MemberLevel(levels, n);
        LevelIsDepth(g, levels, j, n);
        DepthUnique(g, n, j, k);
        assert false;
      }
    }
    forall n | n in nodes && !FromCycle(g, n) ensures n in Elements(levels) {
      OffCyclesInLevels(g, nodes, levels, n);
    }
    AcyclicIffAllLevelled(t, nodes, pairs, levels);
  }

  lemma OffCyclesInLevels(g: Graph, nodes: set<Node>, levels: seq<seq<Node>>, n: Node)
    requires ParentClosed(g, nodes - Elements(levels)) && n in nodes && !FromCycle(g, n)
    ensures n in Elements(levels)
  {
    if n !in Elements(levels) {
      var c := ParentClosedFromCycle(g, nodes - Elements(levels), n);
      assert false;
    }
  }

  lemma AcyclicIffAllLevelled(t: Tables, nodes: set<Node>, pairs: Pairs, levels: seq<seq<Node>>)
    requires LevelState(t, nodes, pairs, levels) && LevelsByDepth(nodes, pairs, levels)
    requires ParentClosed(EdgesOf(pairs), nodes - Elements(levels))
    ensures t.numParents == map[] <==> Acyclic(EdgesOf(pairs))
  {
    var g, rest := EdgesOf(pairs), nodes - Elements(levels);
    if t.numParents == map[] {
      assert rest == {};
      forall c ensures !IsCycle(g, c) {
        if IsCycle(g, c) {
          CycleNotLevelled(nodes, pairs, levels, c);
          assert false;
        }
      }
    } else {
      assert t.numParents.Keys != {};
      var n :| n in rest;
      var c := ParentClosedFromCycle(g, rest, n);
    }
  }

  lemma CycleNotLevelled(nodes: set<Node>, pairs: Pairs, levels: seq<seq<Node>>, c: seq<Node>)
    requires NodesOf(pairs) <= nodes && LevelsByDepth(nodes, pairs, levels) && IsCycle(EdgesOf(pairs), c)
    ensures c[0] in nodes - Elements(levels)
  {
    assert (c[|c| - 1], c[0]) in pairs;
    ReachesSelf(EdgesOf(pairs), c[0]);
    var x := c[0];
    assert FromCycle(EdgesOf(pairs), x);
    if x in Elements(levels) {
      var k := MemberLevel(levels, x);
      assert false;
    }
  }

  // Level k lists, without repetition, exactly the nodes off the cycles whose longest incoming
  // walk has k edges; no level is empty, and no node off the cycles is missing.
  ghost predicate LevelsByDepth(nodes: set<Node>, pairs: Pairs, levels: seq<seq<Node>>) {
    && (forall k :: 0 <= k < |levels| ==> NoDup(levels[k]) && levels[k] != [])
    && (forall n, k :: 0 <= k < |levels| ==>
          (n in levels[k] <==> n in nodes && !FromCycle(EdgesOf(pairs), n) && HasDepth(EdgesOf(pairs), n, k)))
    && (forall n :: n in nodes && !FromCycle(EdgesOf(pairs), n) ==> n in Elements(levels))
  }

  // ----- The levels one after the other

  ghost function Flat(levels: seq<seq<Node>>): seq<Node> {
    if levels == [] then [] else Flat(levels[..|levels| - 1]) + levels[|levels| - 1]
  }

  lemma {:induction false} FlatMember(levels: seq<seq<Node>>, n: Node)
    ensures n in Flat(levels) <==> n in Elements(levels)
    decreases |levels|
  {
    if levels != [] {
      FlatMember(levels[..|levels| - 1], n);
      SplitLast(levels);
      ElementsExtend(levels[..|levels| - 1], levels[|levels| - 1]);
    }
  }

  // No node is in two levels or twice in one, and parents lie in lower levels.
  ghost predicate Apart(g: Graph, levels: seq<seq<Node>>) {
    forall k :: 0 <= k < |levels| ==> NewBelow(g, levels[k], Elements(levels[..k]))
  }

  ghost predicate NewBelow(g: Graph, level: seq<Node>, below: set<Node>) {
    && NoDup(level) && (forall n :: n in level ==> n !in below)
    && (forall n, p :: n in level && (p, n) in g ==> p in below)
  }

  lemma {:induction false} FlatOrdered(g: Graph, levels: seq<seq<Node>>)
    requires Apart(g, levels)
    ensures NoDup(Flat(levels)) && ParentsBefore(g, Flat(levels), |Flat(levels)|)
    decreases |levels|
  {
    if levels != [] {
      var before, last := levels[..|levels| - 1], levels[|levels| - 1];
      assert Apart(g, before) by {
        forall k | 0 <= k < |before| ensures NewBelow(g, before[k], Elements(before[..k])) {
          assert before[..k] == levels[..k] && before[k] == levels[k];
        }
      }
      FlatOrdered(g, before);
      assert NewBelow(g, last, Elements(before));
      forall n ensures n in Flat(before) <==> n in Elements(before) {
        FlatMember(before, n);
      }
      NextInOrder(g, Flat(before), last);
    }
  }

  lemma NextInOrder(g: Graph, flat: seq<Node>, level: seq<Node>)
    requires NoDup(flat) && ParentsBefore(g, flat, |flat|) && NoDup(level)
    requires forall n :: n in level ==> n !in flat
    requires forall n, p :: n in level && (p, n) in g ==> p in flat
    ensures NoDup(flat + level) && ParentsBefore(g, flat + level, |flat + level|)
  {
    var all := flat + level;
    forall i, j | 0 <= i < j < |all| ensures all[i] != all[j] {
      if i < |flat| <= j {
        assert all[i] in flat && all[j] in level;
      }
    }
    forall j, p | 0 <= j < |all| && (p, all[j]) in g ensures Within(all, p, j) && Within(all, p, |all|) {
      var a: nat;
      if j < |flat| {
        a := ParentIndex(g, flat, |flat|, j, p);
      } else {
        assert all[j] in level;
        a :| 0 <= a < |flat| && flat[a] == p;
      }
      assert all[a] == p;
    }
  }

  // The levels one after the other list every node off the cycles once, parents first.
  lemma LevelsAreTopological(nodes: set<Node>, pairs: Pairs, levels: seq<seq<Node>>)
    requires NodesOf(pairs) <= nodes && LevelsByDepth(nodes, pairs, levels)
    ensures NoDup(Flat(levels)) && ParentsBefore(EdgesOf(pairs), Flat(levels), |Flat(levels)|)
    ensures forall n :: n in Flat(levels) <==> n in nodes && !FromCycle(EdgesOf(pairs), n)
  {
    forall k | 0 <= k < |levels| ensures NewBelow(EdgesOf(pairs), levels[k], Elements(levels[..k])) {
      LevelNewBelow(nodes, pairs, levels, k);
    }
    FlatOrdered(EdgesOf(pairs), levels);
    forall n ensures n in Flat(levels) <==> n in nodes && !FromCycle(EdgesOf(pairs), n) {
      FlatMember(levels, n);
    }
  }

  lemma LevelNewBelow(nodes: set<Node>, pairs: Pairs, levels: seq<seq<Node>>, k: nat)
    requires NodesOf(pairs) <= nodes && LevelsByDepth(nodes, pairs, levels) && k < |levels|
    ensures NewBelow(EdgesOf(pairs), levels[k], Elements(levels[..k]))
  {
    var g, below := EdgesOf(pairs), levels[..k];
    forall n | n in levels[k] ensures n !in Elements(below) {
      if n in Elements(below) {
        var j := MemberLevel(below, n);
        DepthUnique(g, n, j, k);
        assert false;
      }
    }
    forall n, p | n in levels[k] && (p, n) in g ensures p in Elements(below) {
      FromCycleOn(g, p, n);
      assert p in NodesOf(pairs);
      var j := MemberLevel(levels, p);
      DepthGrowsAlongEdge(g, p, n, j, k);
      assert below[j] == levels[j];
    }
  }

  lemma FromCycleOn(g: Graph, p: Node, n: Node)
    requires (p, n) in g
    ensures FromCycle(g, p) ==> FromCycle(g, n)
  {
    if FromCycle(g, p) {
      var c, a :| IsCycle(g, c) && a in c && Reaches(g, a, p);
      var w :| PathBetween(g, w, a, p);
      assert PathBetween(g, w + [n], a, n);
    }
  }

  // ----- Tables made by hand

  // How often the child lists of the given keys name n.
  function NamedBy(children: map<Node, seq<Node>>, keys: seq<Node>, n: Node): nat
    requires forall k :: k in keys ==> k in children
  {
    if keys == [] then 0
    else NamedBy(children, keys[..|keys| - 1], n) + multiset(children[keys[|keys| - 1]])[n]
  }

  // The contract of the documentation: every item is a key, with the number of its parents.
  ghost predicate Consistent(t: Tables, keys: seq<Node>) {
    && NoDup(keys) && (forall k :: k in keys <==> k in t.children)
    && (forall k :: k in keys ==> k in t.numParents && forall c :: c in t.children[k] ==> c in t.numParents)
    && (forall n :: n in t.numParents ==> t.numParents[n] == NamedBy(t.children, keys, n))
  }

  function PairsOf(p: Node, kids: seq<Node>): Pairs {
    seq(|kids|, i requires 0 <= i < |kids| => (p, kids[i]))
  }

  function AllPairs(children: map<Node, seq<Node>>, keys: seq<Node>): Pairs
    requires forall k :: k in keys ==> k in children
  {
    if keys == [] then []
    else AllPairs(children, keys[..|keys| - 1]) + PairsOf(keys[|keys| - 1], children[keys[|keys| - 1]])
  }

  lemma {:induction false} CountsConcat(a: Pairs, b: Pairs, n: Node)
    ensures InCount(a + b, n, {}) == InCount(a, n, {}) + InCount(b, n, {})
    ensures ChildrenOf(a + b, n) == ChildrenOf(a, n) + ChildrenOf(b, n)
    decreases |b|
  {
    if b == [] {
      assert a + b == a;
    } else {
      var front, last := b[..|b| - 1], b[|b| - 1];
      CountsConcat(a, front, n);
      assert a + b == (a + front) + [last] && b == front + [last];
      PairsExtend(a + front, last, n);
      PairsExtend(front, last, n);
    }
  }

  lemma {:induction false} CountsOf(p: Node, kids: seq<Node>, n: Node)
    ensures InCount(PairsOf(p, kids), n, {}) == multiset(kids)[n]
    ensures ChildrenOf(PairsOf(p, kids), n) == if n == p then kids else []
    decreases |kids|
  {
    if kids != [] {
      var front, last := kids[..|kids| - 1], kids[|kids| - 1];
      CountsOf(p, front, n);
      PairsOfLast(p, kids);
      PairsExtend(PairsOf(p, front), (p, last), n);
    }
  }

  lemma PairsOfLast(p: Node, kids: seq<Node>)
    requires kids != []
    ensures kids == kids[..|kids| - 1] + [kids[|kids| - 1]]
    ensures PairsOf(p, kids) == PairsOf(p, kids[..|kids| - 1]) + [(p, kids[|kids| - 1])]
  {
  }

  lemma {:induction false} CountsOfAll(children: map<Node, seq<Node>>, keys: seq<Node>, n: Node)
    requires forall k :: k in keys ==> k in children
    ensures InCount(AllPairs(children, keys), n, {}) == NamedBy(children, keys, n)
    decreases |keys|
  {
    if keys != [] {
      var front, last := keys[..|keys| - 1], keys[|keys| - 1];
      CountsOfAll(children, front, n);
      CountsOf(last, children[last], n);
      CountsConcat(AllPairs(children, front), PairsOf(last, children[last]), n);
    }
  }

  lemma {:induction false} ChildrenOfAll(children: map<Node, seq<Node>>, keys: seq<Node>, n: Node)
    requires NoDup(keys) && forall k :: k in keys ==> k in children
    ensures ChildrenOf(AllPairs(children, keys), n) == if n in keys then children[n] else []
    decreases |keys|
  {
    if keys != [] {
      var front, last := keys[..|keys| - 1], keys[|keys| - 1];
      ChildrenOfAll(children, front, n);
      CountsOf(last, children[last], n);
      CountsConcat(AllPairs(children, front), PairsOf(last, children[last]), n);
      InFront(keys, n);
    }
  }

  lemma InFront(keys: seq<Node>, n: Node)
    requires keys != [] && NoDup(keys)
    ensures n in keys <==> n in keys[..|keys| - 1] || n == keys[|keys| - 1]
    ensures keys[|keys| - 1] !in keys[..|keys| - 1]
  {
    SplitLast(keys);
  }

  lemma {:induction false} PairsInside(children: map<Node, seq<Node>>, keys: seq<Node>)
    requires forall k :: k in keys ==> k in children
    ensures forall e :: e in AllPairs(children, keys) ==> e.0 in keys && e.1 in children[e.0]
    decreases |keys|
  {
    if keys != [] {
      PairsInside(children, keys[..|keys| - 1]);
    }
  }

  // Such tables describe a graph, so that the requirement of LevelsCore is the documented one.
  lemma ConsistentDescribed(t: Tables, keys: seq<Node>)
    requires Consistent(t, keys)
    ensures Describes(t, t.numParents.Keys, AllPairs(t.children, keys), {})
  {
    var pairs := AllPairs(t.children, keys);
    forall n
      ensures InCount(pairs, n, {}) == NamedBy(t.children, keys, n) && Lookup(t.children, n) == ChildrenOf(pairs, n)
    {
      CountsOfAll(t.children, keys, n);
      ChildrenOfAll(t.children, keys, n);
    }
    PairsInside(t.children, keys);
  }

  method LevelsCore(t0: Tables, ghost nodes: set<Node>, ghost pairs: Pairs) returns (r: LevelsOutcome)
    requires Describes(t0, nodes, pairs, {})
    ensures LevelsByDepth(nodes, pairs, r.levels)
    ensures r.Levelled? <==> Acyclic(EdgesOf(pairs))
    ensures r.LevelsCycleError? ==> Describes(r.rest, nodes, pairs, Elements(r.levels))
  {
    var t := t0;
    var levels: seq<seq<Node>> := [];
    assert Elements(levels) == {};
    while true
      invariant LevelState(t, nodes, pairs, levels)
      decreases t.numParents.Keys
    {
      var level := ZeroKeys(t.numParents);
      if level == [] {
        LevelsEnd(t, nodes, pairs, levels);
        r := if t.numParents != map[] then LevelsCycleError(levels, t) else Levelled(levels);
        return;
      }
      ghost var before := t;
      ZeroLevelParents(t, nodes, pairs, Elements(levels), level);
      t := RemoveLevel(t, level, nodes, pairs, Elements(levels));
      NextLevel(before, t, nodes, pairs, levels, level);
      assert level[0] in before.numParents && level[0] in SetOf(level);
      levels := levels + [level];
    }
  }

  method TopsortLevels(pairs: Pairs) returns (r: LevelsOutcome)
    ensures LevelsByDepth(NodesOf(pairs), pairs, r.levels)
    ensures r.Levelled? <==> Acyclic(EdgesOf(pairs))
    ensures r.LevelsCycleError? ==> Describes(r.rest, NodesOf(pairs), pairs, Elements(r.levels))
  {
    var t := BuildTables(pairs);
    r := LevelsCore(t, NodesOf(pairs), pairs);
  }
}
