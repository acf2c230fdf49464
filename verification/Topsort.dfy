/** Dependency sorting (`topsort`, bindings/python/topsort.py): a walk over an answer that grows
    on the way, with dictionaries of parent counts and child lists, in any dictionary order. */
module Topsort {
  import opened Graphs
  import opened Sequences

  type Pairs = seq<(Node, Node)>

  // The two dictionaries, num_parents and children.
  datatype Tables = Tables(numParents: map<Node, int>, children: map<Node, seq<Node>>)

  // Outcome of topsort: the sorted list, or CycleError with the partial answer and the tables.
  datatype SortOutcome = Sorted(answer: seq<Node>) | SortCycleError(answer: seq<Node>, rest: Tables)

  // ----- What the tables mean

  function NodesOf(pairs: Pairs): set<Node> {
    (set e | e in pairs :: e.0) + (set e | e in pairs :: e.1)
  }

  function EdgesOf(pairs: Pairs): Graph {
    set e | e in pairs
  }

  // Number of pairs, counted with repetition, that give n a parent outside `gone`.
  function InCount(pairs: Pairs, n: Node, gone: set<Node>): nat {
    if pairs == [] then 0
    else
      var last := pairs[|pairs| - 1];
      InCount(pairs[..|pairs| - 1], n, gone) + if last.1 == n && last.0 !in gone then 1 else 0
  }

  // The children of p in the order, and with the repetitions, of the pair list.
  function ChildrenOf(pairs: Pairs, p: Node): seq<Node> {
    if pairs == [] then []
    else
      var last := pairs[|pairs| - 1];
      ChildrenOf(pairs[..|pairs| - 1], p) + if last.0 == p then [last.1] else []
  }

  function Lookup(children: map<Node, seq<Node>>, p: Node): seq<Node> {
    if p in children then children[p] else []
  }

  // The tables describe the graph (nodes, pairs) after the nodes in `gone` were removed.
  ghost predicate Describes(t: Tables, nodes: set<Node>, pairs: Pairs, gone: set<Node>) {
    && NodesOf(pairs) <= nodes
    && t.numParents.Keys == nodes - gone
    && (forall n :: n in t.numParents ==> t.numParents[n] == InCount(pairs, n, gone))
    && (forall p :: p in t.children ==> p !in gone)
    && (forall p :: p !in gone ==> Lookup(t.children, p) == ChildrenOf(pairs, p))
  }

  lemma {:induction false} InCountPositive(pairs: Pairs, n: Node, gone: set<Node>)
    ensures InCount(pairs, n, gone) > 0 <==> HasParentOutside(pairs, n, gone)
  {
    if pairs != [] {
      var front, last := pairs[..|pairs| - 1], pairs[|pairs| - 1];
      InCountPositive(front, n, gone);
      if last.1 == n && last.0 !in gone {
        assert pairs[|pairs| - 1].1 == n;
      } else if HasParentOutside(pairs, n, gone) {
        var k :| 0 <= k < |pairs| && pairs[k].1 == n && pairs[k].0 !in gone;
        assert front[k] == pairs[k];
      }
    }
  }

  ghost predicate HasParentOutside(pairs: Pairs, n: Node, gone: set<Node>) {
    exists k :: 0 <= k < |pairs| && pairs[k].1 == n && pairs[k].0 !in gone
  }

  lemma CountZeroParents(pairs: Pairs, n: Node, gone: set<Node>)
    ensures InCount(pairs, n, gone) == 0 <==> forall p :: (p, n) in EdgesOf(pairs) ==> p in gone
  {
    InCountPositive(pairs, n, gone);
    if InCount(pairs, n, gone) == 0 {
      forall p | (p, n) in EdgesOf(pairs) ensures p in gone {
        var k :| 0 <= k < |pairs| && pairs[k] == (p, n);
      }
    } else {
      var k :| 0 <= k < |pairs| && pairs[k].1 == n && pairs[k].0 !in gone;
      assert (pairs[k].0, n) in EdgesOf(pairs);
    }
  }

  lemma {:induction false} InCountSplit(pairs: Pairs, n: Node, gone: set<Node>, p: Node)
    requires p !in gone
    ensures InCount(pairs, n, gone) == InCount(pairs, n, gone + {p}) + multiset(ChildrenOf(pairs, p))[n]
  {
    if pairs != [] {
      InCountSplit(pairs[..|pairs| - 1], n, gone, p);
    }
  }

  lemma {:induction false} ChildrenOfMember(pairs: Pairs, p: Node, c: Node)
    ensures c in ChildrenOf(pairs, p) <==> (p, c) in pairs
  {
    if pairs != [] {
      var front, last := pairs[..|pairs| - 1], pairs[|pairs| - 1];
      ChildrenOfMember(front, p, c);
      assert pairs == front + [last];
    }
  }

  // What one more pair at the end adds to a count and to a child list.
  lemma PairsExtend(pairs: Pairs, e: (Node, Node), n: Node)
    ensures InCount(pairs + [e], n, {}) == InCount(pairs, n, {}) + if e.1 == n then 1 else 0
    ensures ChildrenOf(pairs + [e], n) == ChildrenOf(pairs, n) + if e.0 == n then [e.1] else []
  {
    assert (pairs + [e])[..|pairs|] == pairs;
  }

  lemma NodesExtend(pairs: Pairs, e: (Node, Node))
    ensures NodesOf(pairs + [e]) == NodesOf(pairs) + {e.0, e.1}
  {
    var all := pairs + [e];
    assert all[|pairs|] == e;
    assert forall k :: 0 <= k < |pairs| ==> all[k] == pairs[k];
  }

  lemma UnseenCountsZero(pairs: Pairs, n: Node)
    requires n !in NodesOf(pairs)
    ensures InCount(pairs, n, {}) == 0
  {
    InCountPositive(pairs, n, {});
    assert forall k :: 0 <= k < |pairs| ==> pairs[k] in pairs && pairs[k].1 in NodesOf(pairs);
  }

  lemma DescribesExtend(t: Tables, t': Tables, pairs: Pairs, e: (Node, Node))
    requires Describes(t, NodesOf(pairs), pairs, {})
    requires t'.numParents.Keys == t.numParents.Keys + {e.0, e.1}
    requires forall n :: n in t'.numParents ==>
      t'.numParents[n] == (if n in t.numParents then t.numParents[n] else 0) + if n == e.1 then 1 else 0
    requires t'.children == t.children[e.0 := Lookup(t.children, e.0) + [e.1]]
    ensures Describes(t', NodesOf(pairs + [e]), pairs + [e], {})
  {
    NodesExtend(pairs, e);
    forall n | n in t'.numParents ensures t'.numParents[n] == InCount(pairs + [e], n, {}) {
      CountExtends(t, pairs, e, n);
    }
    forall p ensures Lookup(t'.children, p) == ChildrenOf(pairs + [e], p) {
      ChildrenExtend(t, t', pairs, e, p);
    }
  }

  lemma CountExtends(t: Tables, pairs: Pairs, e: (Node, Node), n: Node)
    requires Describes(t, NodesOf(pairs), pairs, {})
    ensures InCount(pairs + [e], n, {}) ==
      (if n in t.numParents then t.numParents[n] else 0) + if n == e.1 then 1 else 0
  {
    PairsExtend(pairs, e, n);
    if n !in t.numParents {
      UnseenCountsZero(pairs, n);
    }
  }

  lemma ChildrenExtend(t: Tables, t': Tables, pairs: Pairs, e: (Node, Node), p: Node)
    requires Describes(t, NodesOf(pairs), pairs, {})
    requires t'.children == t.children[e.0 := Lookup(t.children, e.0) + [e.1]]
    ensures Lookup(t'.children, p) == ChildrenOf(pairs + [e], p)
  {
    PairsExtend(pairs, e, p);
  }

  lemma TakeOneMore(pairs: Pairs, i: nat)
    requires i < |pairs|
    ensures pairs[..i + 1] == pairs[..i] + [pairs[i]]
  {
  }

  // ----- Building the tables (the first loop of both functions)

  method BuildTables(pairs: Pairs) returns (t: Tables)
    ensures Describes(t, NodesOf(pairs), pairs, {})
  {
    var numParents: map<Node, int> := map[];
    var children: map<Node, seq<Node>> := map[];
    for i := 0 to |pairs|
      invariant Describes(Tables(numParents, children), NodesOf(pairs[..i]), pairs[..i], {})
    {
      var parent, child := pairs[i].0, pairs[i].1;
      ghost var before := Tables(numParents, children);
      if parent !in numParents {
        numParents := numParents[parent := 0];
      }
      if child !in numParents {
        numParents := numParents[child := 0];
      }
      numParents := numParents[child := numParents[child] + 1];
      children := children[parent := Lookup(children, parent) + [child]];
      TakeOneMore(pairs, i);
      DescribesExtend(before, Tables(numParents, children), pairs[..i], pairs[i]);
    }
    assert pairs[..|pairs|] == pairs;
    t := Tables(numParents, children);
  }

  // The keys whose count is zero, in dictionary order (any order).
  method ZeroKeys(numParents: map<Node, int>) returns (zeros: seq<Node>)
    ensures NoDup(zeros)
    ensures forall n :: n in zeros <==> n in numParents && numParents[n] == 0
  {
    zeros := [];
    var todo: set<Node> := numParents.Keys;
    while todo != {}
      invariant todo <= numParents.Keys
      invariant NoDup(zeros)
      invariant forall n :: n in zeros <==> n in numParents && n !in todo && numParents[n] == 0
      decreases todo
    {
      var n :| n in todo;
      todo := todo - {n};
      if numParents[n] == 0 {
        zeros := zeros + [n];
      }
    }
  }

  // ----- topsort

  // The first i entries of the answer: the nodes already taken out of the graph.
  ghost function Done(answer: seq<Node>, i: nat): set<Node>
    requires i <= |answer|
  {
    set x | x in answer[..i]
  }

  lemma DoneStep(answer: seq<Node>, i: nat)
    requires i < |answer|
    ensures Done(answer, i + 1) == Done(answer, i) + {answer[i]}
  {
    assert answer[..i + 1] == answer[..i] + [answer[i]];
  }

  lemma DonePrefix(answer: seq<Node>, longer: seq<Node>, i: nat)
    requires i <= |answer| && answer <= longer
    ensures Done(longer, i) == Done(answer, i)
  {
    assert longer[..i] == answer[..i];
  }

  // While the children of a removed node are counted down: each count is the number of
  // in-edges from the nodes left plus the decrements that `rest` still owes.
  ghost predicate Counting(numParents: map<Node, int>, nodes: set<Node>, pairs: Pairs, gone: set<Node>,
                           rest: seq<Node>)
  {
    && numParents.Keys == nodes - gone
    && forall n :: n in numParents ==> numParents[n] == InCount(pairs, n, gone) + multiset(rest)[n]
  }

  // x stands among the first i entries of the answer.
  ghost predicate Within(answer: seq<Node>, x: Node, i: nat) {
    exists a :: 0 <= a < i && a < |answer| && answer[a] == x
  }

  // The parents of every answered node stand before it, within the first i entries.
  ghost predicate ParentsBefore(g: Graph, answer: seq<Node>, i: nat)
    requires i <= |answer|
  {
    forall j, p {:trigger Within(answer, p, j)} :: 0 <= j < |answer| && (p, answer[j]) in g ==>
      Within(answer, p, j) && Within(answer, p, i)
  }

  lemma ParentIndex(g: Graph, answer: seq<Node>, i: nat, j: nat, p: Node) returns (a: nat)
    requires i <= |answer| && ParentsBefore(g, answer, i) && j < |answer| && (p, answer[j]) in g
    ensures a < j && a < i && answer[a] == p
  {
    assert Within(answer, p, j);
    a :| 0 <= a < j && a < |answer| && answer[a] == p;
    assert Within(answer, p, i);
    var a' :| 0 <= a' < i && a' < |answer| && answer[a'] == p;
    a := if a < a' then a else a';
  }

  // First in, first out: of two answered nodes, the later one has a parent that stands no
  // earlier than any parent of the earlier one.
  ghost predicate FifoParents(g: Graph, answer: seq<Node>) {
    forall j, k, p {:trigger answer[j], LateParent(g, answer, k, p)} ::
      0 <= j < k < |answer| && (p, answer[j]) in g ==> LateParent(g, answer, k, p)
  }

  ghost predicate LateParent(g: Graph, answer: seq<Node>, k: nat, p: Node)
    requires k < |answer|
  {
    exists b :: 0 <= b < |answer| && (answer[b], answer[k]) in g && Within(answer, p, b + 1)
  }

  ghost predicate Ordered(g: Graph, answer: seq<Node>, i: nat)
    requires i <= |answer|
  {
    NoDup(answer) && ParentsBefore(g, answer, i) && FifoParents(g, answer)
  }

  lemma RootsOrdered(pairs: Pairs, roots: seq<Node>)
    requires NoDup(roots) && forall n :: n in roots ==> InCount(pairs, n, {}) == 0
    ensures Ordered(EdgesOf(pairs), roots, 0)
  {
    forall j, p | 0 <= j < |roots| ensures (p, roots[j]) !in EdgesOf(pairs) {
      CountZeroParents(pairs, roots[j], {});
    }
  }

  // Appending a node whose parents are all among the first i entries, the i-th being one.
  lemma AppendOrdered(g: Graph, answer: seq<Node>, i: nat, c: Node)
    requires i < |answer| && Ordered(g, answer, i + 1)
    requires c !in answer && (answer[i], c) in g
    requires forall p :: (p, c) in g ==> Within(answer, p, i + 1)
    ensures Ordered(g, answer + [c], i + 1)
  {
    var longer := answer + [c];
    forall j, p | 0 <= j < |longer| && (p, longer[j]) in g
      ensures Within(longer, p, j) && Within(longer, p, i + 1)
    {
      assert Within(answer, p, j) && Within(answer, p, i + 1);
      var a :| 0 <= a < i + 1 && a < |answer| && answer[a] == p;
      var a' :| 0 <= a' < j && a' < |answer| && answer[a'] == p;
      assert longer[a] == p && longer[a'] == p;
    }
    forall j, k, p | 0 <= j < k < |longer| && (p, longer[j]) in g
      ensures LateParent(g, longer, k, p)
    {
      if k == |answer| {
        assert longer[i] == answer[i] && Within(longer, p, i + 1);
      } else {
        assert LateParent(g, answer, k, p);
        var b :| 0 <= b < |answer| && (answer[b], answer[k]) in g && Within(answer, p, b + 1);
        assert longer[b] == answer[b] && longer[k] == answer[k] && Within(longer, p, b + 1);
      }
    }
  }

  // Taking out a node p: its child list is exactly what the counts owe.
  lemma StartCounting(t: Tables, nodes: set<Node>, pairs: Pairs, gone: set<Node>, p: Node)
    requires Describes(t, nodes, pairs, gone) && p in t.numParents
    ensures Counting(t.numParents - {p}, nodes, pairs, gone + {p}, ChildrenOf(pairs, p))
  {
    forall n | n in t.numParents
      ensures t.numParents[n] == InCount(pairs, n, gone + {p}) + multiset(ChildrenOf(pairs, p))[n]
    {
      InCountSplit(pairs, n, gone, p);
    }
  }

  // Halfway through the children of the latest removed node: `rest` is still to be counted down.
  ghost predicate Midway(numParents: map<Node, int>, nodes: set<Node>, pairs: Pairs, answer: seq<Node>, i: nat,
                         rest: seq<Node>)
  {
    && 0 < i <= |answer|
    && (forall n :: n in answer ==> n in nodes)
    && Counting(numParents, nodes, pairs, Done(answer, i), rest)
    && Ordered(EdgesOf(pairs), answer, i)
    && (forall c :: c in rest ==> (answer[i - 1], c) in EdgesOf(pairs))
    && (forall n :: n in answer <==> n in Done(answer, i) || (n in numParents && numParents[n] == 0))
  }

  // The child at the head of the rest has not been removed yet, so its count is there to lower.
  lemma ChildStillCounted(numParents: map<Node, int>, nodes: set<Node>, pairs: Pairs, answer: seq<Node>, i: nat,
                          rest: seq<Node>)
    requires NodesOf(pairs) <= nodes && Midway(numParents, nodes, pairs, answer, i, rest) && rest != []
    ensures rest[0] in numParents && numParents[rest[0]] > 0 && rest[0] !in answer
  {
    var p, c := answer[i - 1], rest[0];
    assert c in rest;
    assert (p, c) in EdgesOf(pairs);
    if c in Done(answer, i) {
      var j :| 0 <= j < i && answer[j] == c;
      var a := ParentIndex(EdgesOf(pairs), answer, i, j, p);
      assert false;
    }
    assert c in NodesOf(pairs);
    assert multiset(rest)[c] > 0;
  }

  lemma CountDown(numParents: map<Node, int>, nodes: set<Node>, pairs: Pairs, answer: seq<Node>, i: nat,
                  rest: seq<Node>)
    requires NodesOf(pairs) <= nodes && Midway(numParents, nodes, pairs, answer, i, rest) && rest != []
    ensures rest[0] in numParents
    ensures var left := numParents[rest[0]] - 1;
      Midway(numParents[rest[0] := left], nodes, pairs, if left == 0 then answer + [rest[0]] else answer, i, rest[1..])
  {
    ChildStillCounted(numParents, nodes, pairs, answer, i, rest);
    var c := rest[0];
    var left := numParents[c] - 1;
    CountingStep(numParents, nodes, pairs, Done(answer, i), rest);
    assert c in rest && forall x :: x in rest[1..] ==> x in rest;
    if left == 0 {
      CountZeroParents(pairs, c, Done(answer, i));
      CountDownAnswered(pairs, answer, i, c);
    }
  }

  lemma CountingStep(numParents: map<Node, int>, nodes: set<Node>, pairs: Pairs, gone: set<Node>, rest: seq<Node>)
    requires Counting(numParents, nodes, pairs, gone, rest) && rest != [] && rest[0] in numParents
    ensures Counting(numParents[rest[0] := numParents[rest[0]] - 1], nodes, pairs, gone, rest[1..])
  {
    assert rest == [rest[0]] + rest[1..];
  }

  lemma CountDownAnswered(pairs: Pairs, answer: seq<Node>, i: nat, c: Node)
    requires 0 < i <= |answer| && Ordered(EdgesOf(pairs), answer, i)
    requires c !in answer && (answer[i - 1], c) in EdgesOf(pairs)
    requires forall p :: (p, c) in EdgesOf(pairs) ==> p in Done(answer, i)
    ensures Ordered(EdgesOf(pairs), answer + [c], i)
    ensures Done(answer + [c], i) == Done(answer, i)
    ensures (answer + [c])[i - 1] == answer[i - 1]
    ensures forall n :: n in answer + [c] <==> n in answer || n == c
  {
    DonePrefix(answer, answer + [c], i);
    forall p | (p, c) in EdgesOf(pairs) ensures Within(answer, p, i) {
      assert p in Done(answer, i);
      var a :| 0 <= a < i && answer[a] == p;
    }
    AppendOrdered(EdgesOf(pairs), answer, i - 1, c);
  }

  // Nothing the sort has answered hangs off a cycle: from an answered node of a cycle one could
  // step back along the cycle to earlier and earlier entries for ever.
  lemma {:induction false} AnsweredOffCycle(g: Graph, answer: seq<Node>, c: seq<Node>, j: nat)
    requires ParentsBefore(g, answer, |answer|) && IsCycle(g, c) && j < |answer|
    ensures answer[j] !in c
    decreases j
  {
    if answer[j] in c {
      var y := CycleParent(g, c, answer[j]);
      var a := ParentIndex(g, answer, |answer|, j, y);
      AnsweredOffCycle(g, answer, c, a);
    }
  }

  lemma {:induction false} AncestorsAnswered(g: Graph, answer: seq<Node>, p: seq<Node>)
    requires ParentsBefore(g, answer, |answer|) && IsPath(g, p) && p[|p| - 1] in answer
    ensures p[0] in answer
    decreases |p|
  {
    if |p| > 1 {
      var k := |p| - 1;
      var j :| 0 <= j < |answer| && answer[j] == p[k];
      var a := ParentIndex(g, answer, |answer|, j, p[k - 1]);
      PathSlice(g, p, 0, k);
      AncestorsAnswered(g, answer, p[..k]);
    }
  }

  // A list whose entries follow their parents, and that holds every node all of whose parents
  // it holds, is exactly the nodes not reachable from a cycle.
  lemma AnsweredIffOffCycles(pairs: Pairs, nodes: set<Node>, answer: seq<Node>, n: Node)
    requires NodesOf(pairs) <= nodes && ParentsBefore(EdgesOf(pairs), answer, |answer|)
    requires forall x :: x in answer <==> x in nodes && InCount(pairs, x, Done(answer, |answer|)) == 0
    ensures n in answer <==> n in nodes && !FromCycle(EdgesOf(pairs), n)
  {
    var g := EdgesOf(pairs);
    if n in answer {
      if FromCycle(g, n) {
        var c, a :| IsCycle(g, c) && a in c && Reaches(g, a, n);
        var p :| PathBetween(g, p, a, n);
        AncestorsAnswered(g, answer, p);
        var j :| 0 <= j < |answer| && answer[j] == a;
        AnsweredOffCycle(g, answer, c, j);
      }
    } else if n in nodes {
      ResidueParentClosed(pairs, nodes, answer);
      var c := ParentClosedFromCycle(g, nodes - Done(answer, |answer|), n);
    }
  }

  lemma ResidueParentClosed(pairs: Pairs, nodes: set<Node>, answer: seq<Node>)
    requires NodesOf(pairs) <= nodes
    requires forall x :: x in answer <==> x in nodes && InCount(pairs, x, Done(answer, |answer|)) == 0
    ensures ParentClosed(EdgesOf(pairs), nodes - Done(answer, |answer|))
  {
    var gone := Done(answer, |answer|);
    forall x | x in nodes - gone ensures HasParentIn(EdgesOf(pairs), nodes - gone, x) {
      InCountPositive(pairs, x, gone);
      var k :| 0 <= k < |pairs| && pairs[k].1 == x && pairs[k].0 !in gone;
      assert pairs[k] in EdgesOf(pairs) && pairs[k].0 in NodesOf(pairs);
    }
  }

  // The sort leaves nothing over exactly when the graph has no cycle.
  lemma NothingLeftIffAcyclic(pairs: Pairs, nodes: set<Node>, answer: seq<Node>)
    requires NodesOf(pairs) <= nodes && ParentsBefore(EdgesOf(pairs), answer, |answer|)
    requires forall x :: x in answer <==> x in nodes && InCount(pairs, x, Done(answer, |answer|)) == 0
    ensures nodes <= Done(answer, |answer|) <==> Acyclic(EdgesOf(pairs))
  {
    var g := EdgesOf(pairs);
    if c :| IsCycle(g, c) {
      assert (c[|c| - 1], c[0]) in pairs;
      assert c[0] in NodesOf(pairs);
      ReachesSelf(g, c[0]);
      AnsweredIffOffCycles(pairs, nodes, answer, c[0]);
    }
    if !(nodes <= Done(answer, |answer|)) {
      var n :| n in nodes && n !in Done(answer, |answer|);
      ResidueParentClosed(pairs, nodes, answer);
      var c := ParentClosedFromCycle(g, nodes - Done(answer, |answer|), n);
    }
  }

  // Between two rounds of the main loop: the first i entries are out of the tables, and the
  // answer holds exactly the nodes whose parents are all out.
  ghost predicate SortState(t: Tables, nodes: set<Node>, pairs: Pairs, answer: seq<Node>, i: nat) {
    && i <= |answer|
    && NodesOf(pairs) <= nodes
    && Describes(t, nodes, pairs, Done(answer, i))
    && Ordered(EdgesOf(pairs), answer, i)
    && (forall n :: n in answer <==> n in nodes && InCount(pairs, n, Done(answer, i)) == 0)
  }

  lemma SortStart(t: Tables, pairs: Pairs, roots: seq<Node>)
    requires Describes(t, NodesOf(pairs), pairs, {}) && NoDup(roots)
    requires forall n :: n in roots <==> n in t.numParents && t.numParents[n] == 0
    ensures SortState(t, NodesOf(pairs), pairs, roots, 0)
  {
    RootsOrdered(pairs, roots);
    assert Done(roots, 0) == {};
  }

  lemma OpenNode(t: Tables, nodes: set<Node>, pairs: Pairs, answer: seq<Node>, i: nat)
    requires SortState(t, nodes, pairs, answer, i) && i < |answer|
    ensures answer[i] in t.numParents
    ensures Lookup(t.children, answer[i]) == ChildrenOf(pairs, answer[i])
    ensures Midway(t.numParents - {answer[i]}, nodes, pairs, answer, i + 1, ChildrenOf(pairs, answer[i]))
  {
    var p, gone := answer[i], Done(answer, i);
    assert p in answer && p !in gone;
    DoneStep(answer, i);
    StartCounting(t, nodes, pairs, gone, p);
    var g, kids := EdgesOf(pairs), ChildrenOf(pairs, p);
    assert ParentsBefore(g, answer, i + 1) by {
      forall j, q | 0 <= j < |answer| && (q, answer[j]) in g ensures Within(answer, q, j) && Within(answer, q, i + 1) {
        var a := ParentIndex(g, answer, i, j, q);
      }
    }
    forall c | c in kids ensures (p, c) in g {
      ChildrenOfMember(pairs, p, c);
    }
    var numParents' := t.numParents - {p};
    forall n ensures n in answer <==> n in Done(answer, i + 1) || (n in numParents' && numParents'[n] == 0) {
      if n in numParents' {
        assert numParents'[n] == InCount(pairs, n, gone);
      }
    }
  }

  lemma CloseNode(t: Tables, numParents': map<Node, int>, nodes: set<Node>, pairs: Pairs, answer: seq<Node>, i: nat)
    requires NodesOf(pairs) <= nodes
    requires i < |answer| && Describes(t, nodes, pairs, Done(answer, i))
    requires Midway(numParents', nodes, pairs, answer, i + 1, [])
    ensures SortState(Tables(numParents', t.children - {answer[i]}), nodes, pairs, answer, i + 1)
  {
    DoneStep(answer, i);
    CloseTables(t, numParents', nodes, pairs, Done(answer, i), answer[i]);
    AnsweredParentsGone(numParents', nodes, pairs, answer, i + 1);
  }

  lemma CloseTables(t: Tables, numParents': map<Node, int>, nodes: set<Node>, pairs: Pairs, gone: set<Node>, p: Node)
    requires Describes(t, nodes, pairs, gone)
    requires Counting(numParents', nodes, pairs, gone + {p}, [])
    ensures Describes(Tables(numParents', t.children - {p}), nodes, pairs, gone + {p})
  {
    forall q | q !in gone + {p} ensures Lookup(t.children - {p}, q) == ChildrenOf(pairs, q) {
      assert Lookup(t.children, q) == ChildrenOf(pairs, q);
    }
  }

  lemma AnsweredParentsGone(numParents: map<Node, int>, nodes: set<Node>, pairs: Pairs, answer: seq<Node>, i: nat)
    requires Midway(numParents, nodes, pairs, answer, i, [])
    ensures forall n :: n in answer <==> n in nodes && InCount(pairs, n, Done(answer, i)) == 0
  {
    var gone := Done(answer, i);
    forall n ensures n in answer <==> n in nodes && InCount(pairs, n, gone) == 0 {
      if n in gone {
        var j :| 0 <= j < i && answer[j] == n;
        forall q | (q, n) in EdgesOf(pairs) ensures q in gone {
          var a := ParentIndex(EdgesOf(pairs), answer, i, j, q);
        }
        CountZeroParents(pairs, n, gone);
      } else if n in nodes {
        assert numParents[n] == InCount(pairs, n, gone);
      }
    }
  }

  lemma SortEnd(t: Tables, pairs: Pairs, answer: seq<Node>)
    requires SortState(t, NodesOf(pairs), pairs, answer, |answer|)
    ensures forall n :: n in answer <==> n in NodesOf(pairs) && !FromCycle(EdgesOf(pairs), n)
    ensures t.numParents == map[] <==> Acyclic(EdgesOf(pairs))
  {
    forall n ensures n in answer <==> n in NodesOf(pairs) && !FromCycle(EdgesOf(pairs), n) {
      AnsweredIffOffCycles(pairs, NodesOf(pairs), answer, n);
    }
    NothingLeftIffAcyclic(pairs, NodesOf(pairs), answer);
    assert t.numParents == map[] <==> t.numParents.Keys == {};
  }

  // The inner loop: lower the count of every listed child, answering those that reach zero.
  method CountDownChildren(numParents0: map<Node, int>, todo: seq<Node>, answer0: seq<Node>,
                           ghost nodes: set<Node>, ghost pairs: Pairs, ghost i: nat)
    returns (numParents: map<Node, int>, answer: seq<Node>)
    requires NodesOf(pairs) <= nodes
    requires Midway(numParents0, nodes, pairs, answer0, i, todo)
    ensures answer0 <= answer
    ensures Midway(numParents, nodes, pairs, answer, i, [])
  {
    numParents, answer := numParents0, answer0;
    for m := 0 to |todo|
      invariant answer0 <= answer
      invariant Midway(numParents, nodes, pairs, answer, i, todo[m..])
    {
      CountDown(numParents, nodes, pairs, answer, i, todo[m..]);
      var child := todo[m];
      numParents := numParents[child := numParents[child] - 1];
      if numParents[child] == 0 {
        answer := answer + [child];
      }
      assert todo[m..][1..] == todo[m + 1..];
    }
    assert todo[|todo|..] == [];
  }

  lemma RoundEnd(t: Tables, t': Tables, nodes: set<Node>, pairs: Pairs, was: seq<Node>, answer: seq<Node>, i: nat)
    requires SortState(t, nodes, pairs, was, i) && i < |was| && was <= answer
    requires Midway(t'.numParents, nodes, pairs, answer, i + 1, [])
    requires t'.children == if was[i] in t.children then t.children - {was[i]} else t.children
    ensures SortState(t', nodes, pairs, answer, i + 1)
    ensures t'.numParents.Keys < t.numParents.Keys
  {
    DonePrefix(was, answer, i);
    CloseNode(t, t'.numParents, nodes, pairs, answer, i);
    assert t'.children == t.children - {was[i]};
    FewerKeys(t, t', nodes, pairs, was, answer, i);
  }

  lemma FewerKeys(t: Tables, t': Tables, nodes: set<Node>, pairs: Pairs, was: seq<Node>, answer: seq<Node>, i: nat)
    requires SortState(t, nodes, pairs, was, i) && i < |was| && was <= answer
    requires Midway(t'.numParents, nodes, pairs, answer, i + 1, [])
    ensures t'.numParents.Keys < t.numParents.Keys
  {
    DoneStep(was, i);
    DonePrefix(was, answer, i + 1);
    OpenNode(t, nodes, pairs, was, i);
  }

  // One round of the main loop: take the i-th answered node out of both tables.
  method RemoveAnswered(t: Tables, answer0: seq<Node>, i: nat, ghost nodes: set<Node>, ghost pairs: Pairs)
    returns (t': Tables, answer: seq<Node>)
    requires SortState(t, nodes, pairs, answer0, i) && i < |answer0|
    ensures SortState(t', nodes, pairs, answer, i + 1)
    ensures t'.numParents.Keys < t.numParents.Keys
  {
    OpenNode(t, nodes, pairs, answer0, i);
    var parent := answer0[i];
    var numParents, children := t.numParents - {parent}, t.children;
    answer := answer0;
    if parent in children {
      numParents, answer := CountDownChildren(numParents, children[parent], answer, nodes, pairs, i + 1);
      children := children - {parent};
    }
    t' := Tables(numParents, children);
    RoundEnd(t, t', nodes, pairs, answer0, answer, i);
  }

  method Topsort(pairs: Pairs) returns (r: SortOutcome)
    ensures Ordered(EdgesOf(pairs), r.answer, |r.answer|)
    ensures forall n :: n in r.answer <==> n in NodesOf(pairs) && !FromCycle(EdgesOf(pairs), n)
    ensures r.Sorted? <==> Acyclic(EdgesOf(pairs))
    ensures r.SortCycleError? ==> Describes(r.rest, NodesOf(pairs), pairs, Done(r.answer, |r.answer|))
  {
    var t := BuildTables(pairs);
    var answer := ZeroKeys(t.numParents);
    SortStart(t, pairs, answer);
    var i := 0;
    while i < |answer|
      invariant SortState(t, NodesOf(pairs), pairs, answer, i)
      decreases t.numParents.Keys
    {
      t, answer := RemoveAnswered(t, answer, i, NodesOf(pairs), pairs);
      i := i + 1;
    }
    SortEnd(t, pairs, answer);
    r := if t.numParents != map[] then SortCycleError(answer, t) else Sorted(answer);
  }
}
