/** How `topsort` and `topsort_levels` relate: they succeed and fail together, leave the same
    tables behind, and the flat answer runs through the levels one after the other. */
module SortsAgree {
  import opened Graphs
  import opened Sequences
  import opened Topsort
  import opened Levels

  // What Topsort.Topsort promises about its outcome.
  ghost predicate SortPromise(pairs: Pairs, r: SortOutcome) {
    && Ordered(EdgesOf(pairs), r.answer, |r.answer|)
    && (forall n :: n in r.answer <==> n in NodesOf(pairs) && !FromCycle(EdgesOf(pairs), n))
    && (r.Sorted? <==> Acyclic(EdgesOf(pairs)))
    && (r.SortCycleError? ==> Describes(r.rest, NodesOf(pairs), pairs, Done(r.answer, |r.answer|)))
  }

  // What Levels.TopsortLevels promises about its outcome.
  ghost predicate LevelsPromise(pairs: Pairs, r: LevelsOutcome) {
    && LevelsByDepth(NodesOf(pairs), pairs, r.levels)
    && (r.Levelled? <==> Acyclic(EdgesOf(pairs)))
    && (r.LevelsCycleError? ==> Describes(r.rest, NodesOf(pairs), pairs, Elements(r.levels)))
  }

  // Running both sorts on the same pairs.
  method BothSorts(pairs: Pairs) returns (a: SortOutcome, b: LevelsOutcome)
    ensures SortPromise(pairs, a) && LevelsPromise(pairs, b)
    ensures a.Sorted? <==> b.Levelled?
    ensures a.SortCycleError? ==> a.rest.numParents == b.rest.numParents
    ensures AnswerRunsThroughLevels(a.answer, b.levels)
  {
    a := Topsort.Topsort(pairs);
    b := TopsortLevels(pairs);
    SameResidue(pairs, a, b);
    FlatAnswerIsLevelled(pairs, a, b);
  }

  lemma SameDone(pairs: Pairs, a: SortOutcome, b: LevelsOutcome)
    requires SortPromise(pairs, a) && LevelsPromise(pairs, b)
    ensures Done(a.answer, |a.answer|) == Elements(b.levels)
  {
    TakeAll(a.answer);
    forall n ensures n in a.answer <==> n in Elements(b.levels) {
      AnsweredIffLevelled(pairs, a, b, n);
    }
  }

  lemma AnsweredIffLevelled(pairs: Pairs, a: SortOutcome, b: LevelsOutcome, n: Node)
    requires SortPromise(pairs, a) && LevelsPromise(pairs, b)
    ensures n in a.answer <==> n in Elements(b.levels)
  {
    if n in Elements(b.levels) {
      var k := MemberLevel(b.levels, n);
    }
  }

  // Both sorts raise on the same input, with the same counts, for the same nodes, and with the
  // same child lists for them.
  lemma SameResidue(pairs: Pairs, a: SortOutcome, b: LevelsOutcome)
    requires SortPromise(pairs, a) && LevelsPromise(pairs, b)
    ensures a.Sorted? <==> b.Levelled?
    ensures a.SortCycleError? ==> a.rest.numParents == b.rest.numParents
    ensures a.SortCycleError? ==>
      forall p :: p in a.rest.numParents ==> Lookup(a.rest.children, p) == Lookup(b.rest.children, p)
  {
    SameDone(pairs, a, b);
  }

  // The nodes a failing sort leaves over are those on or reachable from a cycle, each counted
  // with the pairs whose parent is left over too; there is a cycle among them.
  lemma ResidueMeaning(pairs: Pairs, a: SortOutcome)
    requires SortPromise(pairs, a) && a.SortCycleError?
    ensures forall n :: n in a.rest.numParents <==> n in NodesOf(pairs) && FromCycle(EdgesOf(pairs), n)
    ensures forall n :: n in a.rest.numParents ==>
      a.rest.numParents[n] == CountFrom(pairs, n, a.rest.numParents.Keys) > 0
    ensures exists c :: IsCycle(EdgesOf(pairs), c) && forall i :: 0 <= i < |c| ==> c[i] in a.rest.numParents
  {
    var gone := Done(a.answer, |a.answer|);
    assert a.answer[..|a.answer|] == a.answer;
    var left := a.rest.numParents.Keys;
    forall n | n in left ensures a.rest.numParents[n] == CountFrom(pairs, n, left) > 0 {
      CountFromIsInCount(pairs, n, left, gone);
      var y := FromCycleParent(EdgesOf(pairs), n);
      CountZeroParents(pairs, n, gone);
    }
    var c := CycleAmongHanging(pairs, left);
  }

  // The comment beside both errors: everything left over has at least one child.
  ghost predicate EveryoneLeftHasChild(rest: Tables) {
    forall n :: n in rest.numParents ==> Lookup(rest.children, n) != []
  }

  predicate HasChild(pairs: Pairs, n: Node) {
    exists i :: 0 <= i < |pairs| && pairs[i].0 == n
  }

  // No childless node is on or reachable from a cycle.
  ghost predicate CyclesLeadOn(pairs: Pairs) {
    forall n: Node :: FromCycle(EdgesOf(pairs), n) ==> HasChild(pairs, n)
  }

  // The comment is right if and only if nothing that hangs off a cycle is childless.
  lemma LeftHaveChildrenIff(pairs: Pairs, a: SortOutcome)
    requires SortPromise(pairs, a) && a.SortCycleError?
    ensures EveryoneLeftHasChild(a.rest) <==> CyclesLeadOn(pairs)
  {
    ResidueMeaning(pairs, a);
    forall n | n in a.rest.numParents ensures Lookup(a.rest.children, n) != [] <==> HasChild(pairs, n) {
      LeftHasChildIff(pairs, a, n);
    }
    forall n | FromCycle(EdgesOf(pairs), n) ensures n in a.rest.numParents {
      var p := FromCycleParent(EdgesOf(pairs), n);
      assert (p, n) in pairs;
    }
  }

  lemma LeftHasChildIff(pairs: Pairs, a: SortOutcome, n: Node)
    requires SortPromise(pairs, a) && a.SortCycleError? && n in a.rest.numParents
    ensures Lookup(a.rest.children, n) != [] <==> HasChild(pairs, n)
  {
    var kids := ChildrenOf(pairs, n);
    if kids != [] {
      ChildrenOfMember(pairs, n, kids[0]);
    }
    if i :| 0 <= i < |pairs| && pairs[i].0 == n {
      ChildrenOfMember(pairs, n, pairs[i].1);
    }
  }

  // A cycle at 1 and an edge from 1 to 2.
  const LOOP_AND_LEAF: Pairs := [(1, 1), (1, 2)]

  lemma LeafHangsOffLoop()
    ensures FromCycle(EdgesOf(LOOP_AND_LEAF), 2)
  {
    var g := EdgesOf(LOOP_AND_LEAF);
    assert LOOP_AND_LEAF[0] == (1, 1) && LOOP_AND_LEAF[1] == (1, 2);
    assert IsCycle(g, [1]) && 1 in [1];
    ReachesEdge(g, 1, 2);
  }

  lemma LeftOver(pairs: Pairs, a: SortOutcome, n: Node)
    requires SortPromise(pairs, a) && n in NodesOf(pairs) && FromCycle(EdgesOf(pairs), n)
    ensures a.SortCycleError? && n in a.rest.numParents && (Lookup(a.rest.children, n) == [] <==> !HasChild(pairs, n))
  {
    var c, x :| IsCycle(EdgesOf(pairs), c) && x in c && Reaches(EdgesOf(pairs), x, n);
    ResidueMeaning(pairs, a);
    LeftHasChildIff(pairs, a, n);
  }

  // There the comment is wrong: 2 is left over and has no child.
  lemma LeftWithoutChild(a: SortOutcome)
    requires SortPromise(LOOP_AND_LEAF, a)
    ensures a.SortCycleError? && 2 in a.rest.numParents && Lookup(a.rest.children, 2) == []
  {
    LeafHangsOffLoop();
    assert LOOP_AND_LEAF[1] == (1, 2);
    LeftOver(LOOP_AND_LEAF, a, 2);
  }

  lemma CycleAmongHanging(pairs: Pairs, left: set<Node>) returns (c: seq<Node>)
    requires !Acyclic(EdgesOf(pairs))
    requires forall n :: n in left <==> n in NodesOf(pairs) && FromCycle(EdgesOf(pairs), n)
    ensures IsCycle(EdgesOf(pairs), c) && forall i :: 0 <= i < |c| ==> c[i] in left
  {
    var g := EdgesOf(pairs);
    c :| IsCycle(g, c);
    forall i | 0 <= i < |c| ensures c[i] in left {
      var y := CycleParent(g, c, c[i]);
      assert (y, c[i]) in pairs;
      ReachesSelf(g, c[i]);
      assert FromCycle(g, c[i]);
    }
  }

  ghost predicate Hit(pairs: Pairs, n: Node, sources: set<Node>, i: int) {
    0 <= i < |pairs| && pairs[i].1 == n && pairs[i].0 in sources
  }

  // Number of pairs, with repetition, from a parent in `sources` to n.
  ghost function CountFrom(pairs: Pairs, n: Node, sources: set<Node>): nat {
    |Hits(pairs, n, sources)|
  }

  ghost function Hits(pairs: Pairs, n: Node, sources: set<Node>): set<int> {
    set i | 0 <= i < |pairs| && Hit(pairs, n, sources, i)
  }

  lemma {:induction false} CountFromIsInCount(pairs: Pairs, n: Node, sources: set<Node>, gone: set<Node>)
    requires forall i :: 0 <= i < |pairs| ==> (pairs[i].0 in sources <==> pairs[i].0 !in gone)
    ensures CountFrom(pairs, n, sources) == InCount(pairs, n, gone)
  {
    if pairs != [] {
      CountFromIsInCount(pairs[..|pairs| - 1], n, sources, gone);
      CountFromLast(pairs, n, sources);
    }
  }

  lemma CountFromLast(pairs: Pairs, n: Node, sources: set<Node>)
    requires pairs != []
    ensures var k := |pairs| - 1;
      CountFrom(pairs, n, sources) == CountFrom(pairs[..k], n, sources) + if Hit(pairs, n, sources, k) then 1 else 0
  {
    HitsLast(pairs, n, sources);
    assert |pairs| - 1 !in Hits(pairs[..|pairs| - 1], n, sources);
  }

  lemma HitsLast(pairs: Pairs, n: Node, sources: set<Node>)
    requires pairs != []
    ensures var k := |pairs| - 1;
      Hits(pairs, n, sources) == Hits(pairs[..k], n, sources) + if Hit(pairs, n, sources, k) then {k} else {}
  {
    var k := |pairs| - 1;
    forall i ensures Hit(pairs[..k], n, sources, i) <==> Hit(pairs, n, sources, i) && i != k {
    }
  }

  // A node that hangs off a cycle has a parent that does.
  lemma FromCycleParent(g: Graph, n: Node) returns (y: Node)
    requires FromCycle(g, n)
    ensures (y, n) in g && FromCycle(g, y)
  {
    var c, a :| IsCycle(g, c) && a in c && Reaches(g, a, n);
    var p :| PathBetween(g, p, a, n);
    if |p| == 1 {
      y := CycleParent(g, c, n);
      ReachesSelf(g, y);
    } else {
      y := p[|p| - 2];
      PathSlice(g, p, 0, |p| - 1);
      assert PathBetween(g, p[..|p| - 1], a, y);
    }
  }

  // ----- The flat answer runs through the levels

  ghost function Offset(levels: seq<seq<Node>>, k: nat): nat
    requires k <= |levels|
  {
    if k == 0 then 0 else Offset(levels, k - 1) + |levels[k - 1]|
  }

  // The answer is cut into consecutive stretches, the k-th being level k in some order.
  ghost predicate AnswerRunsThroughLevels(answer: seq<Node>, levels: seq<seq<Node>>) {
    && Offset(levels, |levels|) == |answer|
    && forall k :: 0 <= k < |levels| ==> Stretch(answer, levels, k)
  }

  ghost predicate Stretch(answer: seq<Node>, levels: seq<seq<Node>>, k: nat)
    requires k < |levels|
  {
    && Offset(levels, k + 1) <= |answer|
    && SetOf(answer[Offset(levels, k)..Offset(levels, k + 1)]) == SetOf(levels[k])
  }

  // First in, first out makes the answer non-decreasing in depth.
  lemma {:induction false} AnswerByDepth(g: Graph, answer: seq<Node>, levels: seq<seq<Node>>, i: nat, j: nat, a: nat,
                                         b: nat)
    requires Ordered(g, answer, |answer|) && i < j < |answer|
    requires forall n :: n in answer ==> n in Elements(levels)
    requires forall n, k :: 0 <= k < |levels| && n in levels[k] ==> HasDepth(g, n, k)
    requires HasDepth(g, answer[i], a) && HasDepth(g, answer[j], b)
    ensures a <= b
    decreases j
  {
    if a > 0 {
      var w :| IsPath(g, w) && |w| == a + 1 && w[a] == answer[i];
      var p := w[a - 1];
      assert IsPath(g, w[..a]) by { PathSlice(g, w, 0, a); }
      assert EndsWalk(g, p, a - 1) by { assert w[..a][a - 1] == p; }
      var x := ParentIndex(g, answer, |answer|, i, p);
      assert LateParent(g, answer, j, p);
      var q :| 0 <= q < |answer| && (answer[q], answer[j]) in g && Within(answer, p, q + 1);
      var q' := ParentIndex(g, answer, |answer|, j, answer[q]);
      assert q == q';
      var c := MemberLevel(levels, answer[q]);
      var d := MemberLevel(levels, p);
      var x' :| 0 <= x' < q + 1 && x' < |answer| && answer[x'] == p;
      if x' < q {
        AnswerByDepth(g, answer, levels, x', q, d, c);
      } else {
        DepthUnique(g, p, c, d);
      }
      DepthGrowsAlongEdge(g, answer[q], answer[j], c, b);
    }
  }

  lemma {:induction false} SetOfNoLonger(s: seq<Node>)
    ensures |SetOf(s)| <= |s|
  {
    if s != [] {
      var front := s[..|s| - 1];
      SetOfNoLonger(front);
      assert s == front + [s[|s| - 1]];
      assert SetOf(s) == SetOf(front) + {s[|s| - 1]};
    }
  }

  // A duplicate-free list that fits into a list no longer than itself fills it.
  lemma FillsList(a: seq<Node>, b: seq<Node>)
    requires NoDup(a) && |b| <= |a| && forall x :: x in a ==> x in b
    ensures |a| == |b| && SetOf(b) == SetOf(a)
  {
    SetOfNoLonger(b);
    Pigeonhole(a, SetOf(b));
    if y :| y in b && y !in a {
      Pigeonhole(a, SetOf(b) - {y});
      assert false;
    }
  }

  // Where level k starts, the answer has listed exactly the levels below.
  lemma {:induction false} AnswerStretches(answer: seq<Node>, levels: seq<seq<Node>>, k: nat)
    requires k <= |levels| && NoDup(answer) && forall j :: 0 <= j < |levels| ==> NoDup(levels[j])
    requires forall n :: n in answer <==> n in Elements(levels)
    requires OneLevelEach(levels) && NonDecreasing(answer, levels)
    ensures Offset(levels, k) <= |answer|
    ensures Done(answer, Offset(levels, k)) == Elements(levels[..k])
    ensures forall j :: 0 <= j < k ==> Stretch(answer, levels, j)
    decreases k
  {
    if k == 0 {
      assert Elements(levels[..0]) == {};
    } else {
      AnswerStretches(answer, levels, k - 1);
      NextStretch(answer, levels, k - 1);
      var lo, hi := Offset(levels, k - 1), Offset(levels, k);
      assert answer[..hi] == answer[..lo] + answer[lo..hi];
      assert Done(answer, hi) == Done(answer, lo) + SetOf(answer[lo..hi]);
      assert levels[..k] == levels[..k - 1] + [levels[k - 1]];
      ElementsExtend(levels[..k - 1], levels[k - 1]);
    }
  }

  ghost predicate OneLevelEach(levels: seq<seq<Node>>) {
    forall n, j, k :: 0 <= j < |levels| && 0 <= k < |levels| && n in levels[j] && n in levels[k] ==> j == k
  }

  // The levels of the answer's entries never go down.
  ghost predicate NonDecreasing(answer: seq<Node>, levels: seq<seq<Node>>) {
    forall i, j, a, b | 0 <= i < j < |answer| && 0 <= a < |levels| && 0 <= b < |levels| ::
      answer[i] in levels[a] && answer[j] in levels[b] ==> a <= b
  }

  // Behind the lower levels, an entry in front of a level-k entry is in level k itself.
  lemma BetweenIsLevel(answer: seq<Node>, levels: seq<seq<Node>>, k: nat, x: nat, y: nat)
    requires k < |levels| && NoDup(answer) && NonDecreasing(answer, levels)
    requires forall n :: n in answer <==> n in Elements(levels)
    requires Offset(levels, k) <= x <= y < |answer| && answer[y] in levels[k]
    requires Done(answer, Offset(levels, k)) == Elements(levels[..k])
    ensures answer[x] in levels[k]
  {
    var j := MemberLevel(levels, answer[x]);
    NotListedBefore(answer, Offset(levels, k), x);
  }

  lemma NotListedBefore(answer: seq<Node>, i: nat, x: nat)
    requires NoDup(answer) && i <= x < |answer|
    ensures answer[x] !in Done(answer, i)
  {
  }

  lemma NextStretch(answer: seq<Node>, levels: seq<seq<Node>>, k: nat)
    requires k < |levels| && NoDup(answer) && NoDup(levels[k])
    requires forall n :: n in answer <==> n in Elements(levels)
    requires OneLevelEach(levels) && NonDecreasing(answer, levels)
    requires Offset(levels, k) <= |answer|
    requires Done(answer, Offset(levels, k)) == Elements(levels[..k])
    ensures Stretch(answer, levels, k)
  {
    var lo, level := Offset(levels, k), levels[k];
    var hi := if lo + |level| <= |answer| then lo + |level| else |answer|;
    var stretch := answer[lo..hi];
    forall n | n in level ensures n in stretch {
      LevelEntry(answer, levels, k, n, stretch, hi);
    }
    FillsList(level, stretch);
  }

  lemma LevelEntry(answer: seq<Node>, levels: seq<seq<Node>>, k: nat, n: Node, stretch: seq<Node>, hi: nat)
    requires k < |levels| && NoDup(answer) && NoDup(levels[k])
    requires forall n :: n in answer <==> n in Elements(levels)
    requires OneLevelEach(levels) && NonDecreasing(answer, levels)
    requires Offset(levels, k) <= hi <= |answer| && stretch == answer[Offset(levels, k)..hi]
    requires hi == |answer| || hi == Offset(levels, k) + |levels[k]|
    requires Done(answer, Offset(levels, k)) == Elements(levels[..k])
    requires n in levels[k]
    ensures n in stretch
  {
    assert n in Elements(levels);
    var y :| 0 <= y < |answer| && answer[y] == n;
    LevelPlace(answer, levels, k, y);
    assert stretch[y - Offset(levels, k)] == n;
  }

  // A level-k entry stands in the stretch of the answer reserved for level k.
  lemma LevelPlace(answer: seq<Node>, levels: seq<seq<Node>>, k: nat, y: nat)
    requires k < |levels| && NoDup(answer) && NoDup(levels[k])
    requires forall n :: n in answer <==> n in Elements(levels)
    requires OneLevelEach(levels) && NonDecreasing(answer, levels)
    requires Offset(levels, k) <= |answer| && y < |answer| && answer[y] in levels[k]
    requires Done(answer, Offset(levels, k)) == Elements(levels[..k])
    ensures Offset(levels, k) <= y < Offset(levels, k) + |levels[k]|
  {
    var lo, level := Offset(levels, k), levels[k];
    assert forall i :: 0 <= i < lo ==> answer[i] in Done(answer, lo);
    assert answer[y] !in Elements(levels[..k]);
    forall x | lo <= x <= y ensures answer[x] in level {
      BetweenIsLevel(answer, levels, k, x, y);
    }
    SetOfNoLonger(level);
    Pigeonhole(answer[lo..y + 1], SetOf(level));
  }

  // `topsort` lists the levels of `topsort_levels` one after the other.
  lemma FlatAnswerIsLevelled(pairs: Pairs, a: SortOutcome, b: LevelsOutcome)
    requires SortPromise(pairs, a) && LevelsPromise(pairs, b)
    ensures AnswerRunsThroughLevels(a.answer, b.levels)
  {
    var g, answer, levels := EdgesOf(pairs), a.answer, b.levels;
    SameDone(pairs, a, b);
    assert answer[..|answer|] == answer;
    forall n ensures n in answer <==> n in Elements(levels) {
      assert n in answer <==> n in Done(answer, |answer|);
    }
    forall n, j, k | 0 <= j < |levels| && 0 <= k < |levels| && n in levels[j] && n in levels[k] ensures j == k {
      DepthUnique(g, n, j, k);
    }
    forall i, j, x, y | 0 <= i < j < |answer| && 0 <= x < |levels| && 0 <= y < |levels|
      && answer[i] in levels[x] && answer[j] in levels[y] ensures x <= y
    {
      AnswerByDepth(g, answer, levels, i, j, x, y);
    }
    AnswerStretches(answer, levels, |levels|);
    assert levels[..|levels|] == levels;
    if Offset(levels, |levels|) < |answer| {
      NotListedBefore(answer, Offset(levels, |levels|), Offset(levels, |levels|));
      assert false;
    }
  }

  // ----- What the two dictionaries hold, by position in the pair list

  lemma {:induction false} ParentsCounted(pairs: Pairs, n: Node)
    ensures InCount(pairs, n, {}) == |set i | 0 <= i < |pairs| && pairs[i].1 == n|
    decreases |pairs|
  {
    if pairs != [] {
      var k := |pairs| - 1;
      var front := pairs[..k];
      ParentsCounted(front, n);
      OneMorePlace(set i | 0 <= i < k && front[i].1 == n, (set i | 0 <= i < |pairs| && pairs[i].1 == n), k,
                   pairs[k].1 == n);
    }
  }

  ghost function PlacesFrom(pairs: Pairs, p: Node): set<nat> {
    set i: nat | i < |pairs| && pairs[i].0 == p
  }

  // The children of p are those of its pairs, in order and with repetitions.
  lemma {:induction false} ChildrenListed(pairs: Pairs, p: Node) returns (at: seq<nat>)
    ensures Places(at, PlacesFrom(pairs, p)) && |ChildrenOf(pairs, p)| == |at|
    ensures forall i :: 0 <= i < |at| ==> at[i] < |pairs| && ChildrenOf(pairs, p)[i] == pairs[at[i]].1
    decreases |pairs|
  {
    if pairs == [] {
      at := [];
    } else {
      var k := |pairs| - 1;
      var front := pairs[..k];
      at := ChildrenListed(front, p);
      assert forall i :: 0 <= i < k ==> front[i] == pairs[i];
      if pairs[k].0 == p {
        assert PlacesFrom(pairs, p) == PlacesFrom(front, p) + {k};
        PlacesAppend(at, PlacesFrom(front, p), k, PlacesFrom(pairs, p));
        at := at + [k];
      } else {
        assert PlacesFrom(pairs, p) == PlacesFrom(front, p);
      }
    }
  }
}
