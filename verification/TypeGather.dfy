/** `StaticInformation` (utils/print-introspected-doxygen.cc): a backtracking walk over the type
    graph with two shared stacks, which records each way of reaching a type without repeating one. */
module TypeGather {
  import opened Sequences

  // Types are numbered in registration order.
  type TypeId = nat

  datatype AttributeKind = Pointer(pointee: TypeId) | Container(item: TypeId) | Value

  datatype Attribute = Attribute(name: string, kind: AttributeKind)

  datatype TypeInfo = TypeInfo(name: string, attributes: seq<Attribute>)

  // The type system: the registered types, which of them is Object, and who derives from whom.
  datatype Registry = Registry(types: seq<TypeInfo>, objectType: TypeId, isChildOf: (TypeId, TypeId) -> bool)

  datatype Edge = Edge(name: string, target: TypeId)

  predicate Registered(reg: Registry, tid: TypeId) {
    tid < |reg.types|
  }

  predicate GoodKind(reg: Registry, kind: AttributeKind) {
    match kind
    case Pointer(t) => Registered(reg, t)
    case Container(t) => Registered(reg, t)
    case Value => true
  }

  predicate GoodType(reg: Registry, info: TypeInfo) {
    forall i :: 0 <= i < |info.attributes| ==> GoodKind(reg, info.attributes[i].kind)
  }

  predicate GoodRegistry(reg: Registry) {
    forall i :: 0 <= i < |reg.types| ==> GoodType(reg, reg.types[i])
  }

  type Aggregates = seq<(TypeId, TypeId)>

  predicate GoodAggregates(reg: Registry, aggregates: Aggregates) {
    forall i :: 0 <= i < |aggregates| ==> Registered(reg, aggregates[i].0) && Registered(reg, aggregates[i].1)
  }

  // ----- The type graph

  // What one attribute leads to; a pointer to a plain Object leads nowhere.
  function AttributeEdge(reg: Registry, a: Attribute): seq<Edge> {
    match a.kind
    case Pointer(pointee) => if pointee == reg.objectType then [] else [Edge(a.name, pointee)]
    case Container(item) => [Edge(a.name + "/[i]", item)]
    case Value => []
  }

  function AttributeEdges(reg: Registry, tid: TypeId, n: nat): seq<Edge>
    requires Registered(reg, tid) && n <= |reg.types[tid].attributes|
  {
    if n == 0 then [] else AttributeEdges(reg, tid, n - 1) + AttributeEdge(reg, reg.types[tid].attributes[n - 1])
  }

  function ChildEdges(reg: Registry, tid: TypeId, n: nat): seq<Edge>
    requires n <= |reg.types|
  {
    if n == 0 then []
    else
      ChildEdges(reg, tid, n - 1)
      + if reg.isChildOf(n - 1, tid) then [Edge("$" + reg.types[n - 1].name, n - 1)] else []
  }

  function AggregateEdge(reg: Registry, pair: (TypeId, TypeId), tid: TypeId): seq<Edge>
    requires Registered(reg, pair.0) && Registered(reg, pair.1)
  {
    if pair.1 == tid then [Edge("$" + reg.types[pair.0].name, pair.0)]
    else if pair.0 == tid then [Edge("$" + reg.types[pair.1].name, pair.1)]
    else []
  }

  function AggregateEdges(reg: Registry, aggregates: Aggregates, tid: TypeId, n: nat): seq<Edge>
    requires GoodAggregates(reg, aggregates) && n <= |aggregates|
  {
    if n == 0 then [] else AggregateEdges(reg, aggregates, tid, n - 1) + AggregateEdge(reg, aggregates[n - 1], tid)
  }

  // The graph as data: all edges of each registered type, in the order they are followed.
  datatype Graph = Graph(reg: Registry, aggregates: Aggregates)

  predicate GoodGraph(g: Graph) {
    GoodRegistry(g.reg) && GoodAggregates(g.reg, g.aggregates)
  }

  function Edges(g: Graph, tid: TypeId): (edges: seq<Edge>)
    requires GoodGraph(g) && Registered(g.reg, tid)
    ensures forall i :: 0 <= i < |edges| ==> Registered(g.reg, edges[i].target)
  {
    EdgesRegistered(g, tid);
    AttributeEdges(g.reg, tid, |g.reg.types[tid].attributes|) + ChildEdges(g.reg, tid, |g.reg.types|)
    + AggregateEdges(g.reg, g.aggregates, tid, |g.aggregates|)
  }

  predicate Targets(reg: Registry, edges: seq<Edge>) {
    forall i :: 0 <= i < |edges| ==> Registered(reg, edges[i].target)
  }

  lemma {:induction false} AttributeTargets(reg: Registry, tid: TypeId, n: nat)
    requires GoodRegistry(reg) && Registered(reg, tid) && n <= |reg.types[tid].attributes|
    ensures Targets(reg, AttributeEdges(reg, tid, n))
  {
    if n > 0 {
      AttributeTargets(reg, tid, n - 1);
      assert GoodType(reg, reg.types[tid]);
      assert GoodKind(reg, reg.types[tid].attributes[n - 1].kind);
    }
  }

  lemma {:induction false} ChildTargets(reg: Registry, tid: TypeId, n: nat)
    requires n <= |reg.types|
    ensures Targets(reg, ChildEdges(reg, tid, n))
  {
    if n > 0 {
      ChildTargets(reg, tid, n - 1);
    }
  }

  lemma {:induction false} AggregateTargets(reg: Registry, aggregates: Aggregates, tid: TypeId, n: nat)
    requires GoodAggregates(reg, aggregates) && n <= |aggregates|
    ensures Targets(reg, AggregateEdges(reg, aggregates, tid, n))
  {
    if n > 0 {
      AggregateTargets(reg, aggregates, tid, n - 1);
    }
  }

  lemma EdgesRegistered(g: Graph, tid: TypeId)
    requires GoodGraph(g) && Registered(g.reg, tid)
    ensures Targets(g.reg, AttributeEdges(g.reg, tid, |g.reg.types[tid].attributes|))
    ensures Targets(g.reg, ChildEdges(g.reg, tid, |g.reg.types|))
    ensures Targets(g.reg, AggregateEdges(g.reg, g.aggregates, tid, |g.aggregates|))
  {
    AttributeTargets(g.reg, tid, |g.reg.types[tid].attributes|);
    ChildTargets(g.reg, tid, |g.reg.types|);
    AggregateTargets(g.reg, g.aggregates, tid, |g.aggregates|);
  }

  // ----- Paths: which edge to take at each type

  type Path = seq<nat>

  // The path follows existing edges and never comes to a type twice, nor to one in `seen`.
  predicate SimplePath(g: Graph, seen: set<TypeId>, tid: TypeId, p: Path)
    requires GoodGraph(g) && Registered(g.reg, tid)
    decreases |p|
  {
    tid !in seen &&
    (p == [] || (p[0] < |Edges(g, tid)| && SimplePath(g, seen + {tid}, Edges(g, tid)[p[0]].target, p[1..])))
  }

  // The type a path ends in and the labels along it.
  function Follow(g: Graph, tid: TypeId, p: Path): (r: (TypeId, seq<string>))
    requires GoodGraph(g) && Registered(g.reg, tid)
    ensures Registered(g.reg, r.0)
    decreases |p|
  {
    if p == [] || p[0] >= |Edges(g, tid)| then (tid, [])
    else
      var e := Edges(g, tid)[p[0]];
      var rest := Follow(g, e.target, p[1..]);
      (rest.0, [e.name] + rest.1)
  }

  function PathString(labels: seq<string>): string {
    if labels == [] then "" else PathString(labels[..|labels| - 1]) + "/" + labels[|labels| - 1]
  }

  // The entry recorded for a path that continues the labels of the current path.
  function EntryOf(g: Graph, labels: seq<string>, tid: TypeId, p: Path): (TypeId, string)
    requires GoodGraph(g) && Registered(g.reg, tid)
  {
    var end := Follow(g, tid, p);
    (end.0, PathString(labels + end.1))
  }

  // ----- The walk

  function Below(n: nat): (s: set<TypeId>)
    ensures |s| == n && forall t: TypeId :: t in s <==> t < n
  {
    if n == 0 then {} else Below(n - 1) + {n - 1}
  }

  function AllTypes(g: Graph): set<TypeId> {
    Below(|g.reg.types|)
  }

  lemma SeenGrows(g: Graph, seen: set<TypeId>, tid: TypeId)
    requires seen <= AllTypes(g) && Registered(g.reg, tid) && tid !in seen
    ensures seen + {tid} <= AllTypes(g) && |seen| < |seen + {tid}| <= |g.reg.types|
  {
    Subset(seen + {tid}, AllTypes(g));
  }

  lemma {:induction false} Subset(a: set<TypeId>, b: set<TypeId>)
    requires a <= b
    ensures |a| <= |b|
  {
    if a != {} {
      var x :| x in a;
      Subset(a - {x}, b - {x});
    }
  }

  function Prefixed(i: nat, paths: seq<Path>): seq<Path> {
    seq(|paths|, k requires 0 <= k < |paths| => [i] + paths[k])
  }

  // The simple paths from tid, in the order of the walk.
  function Paths(g: Graph, seen: set<TypeId>, tid: TypeId): seq<Path>
    requires GoodGraph(g) && Registered(g.reg, tid) && seen <= AllTypes(g)
    decreases |g.reg.types| - |seen|, 1, 0
  {
    if tid in seen then [] else [[]] + PathsThrough(g, seen, tid, |Edges(g, tid)|)
  }

  // Those through one of the first n edges.
  function PathsThrough(g: Graph, seen: set<TypeId>, tid: TypeId, n: nat): seq<Path>
    requires GoodGraph(g) && Registered(g.reg, tid) && seen <= AllTypes(g) && tid !in seen && n <= |Edges(g, tid)|
    decreases |g.reg.types| - |seen|, 0, n
  {
    if n == 0 then []
    else
      SeenGrows(g, seen, tid);
      PathsThrough(g, seen, tid, n - 1) + Prefixed(n - 1, Paths(g, seen + {tid}, Edges(g, tid)[n - 1].target))
  }

  // ----- What the walk lists

  lemma {:induction false} PathListed(g: Graph, seen: set<TypeId>, tid: TypeId, p: Path)
    requires GoodGraph(g) && Registered(g.reg, tid) && seen <= AllTypes(g)
    ensures p in Paths(g, seen, tid) <==> SimplePath(g, seen, tid, p)
    decreases |p|
  {
    if tid !in seen && p != [] {
      var n := |Edges(g, tid)|;
      PathThrough(g, seen, tid, n, p);
      if p[0] < n {
        SeenGrows(g, seen, tid);
        PathListed(g, seen + {tid}, Edges(g, tid)[p[0]].target, p[1..]);
      }
      assert p in Paths(g, seen, tid) <==> p in PathsThrough(g, seen, tid, n);
    }
  }

  // The path takes an edge of tid and goes on with a path listed from there.
  ghost predicate Onward(g: Graph, seen: set<TypeId>, tid: TypeId, p: Path)
    requires GoodGraph(g) && Registered(g.reg, tid) && seen <= AllTypes(g) && tid !in seen
  {
    SeenGrows(g, seen, tid);
    p != [] && p[0] < |Edges(g, tid)| && p[1..] in Paths(g, seen + {tid}, Edges(g, tid)[p[0]].target)
  }

  lemma {:induction false} PathThrough(g: Graph, seen: set<TypeId>, tid: TypeId, n: nat, p: Path)
    requires GoodGraph(g) && Registered(g.reg, tid) && seen <= AllTypes(g) && tid !in seen && n <= |Edges(g, tid)|
    ensures p in PathsThrough(g, seen, tid, n) <==> Onward(g, seen, tid, p) && p[0] < n
    decreases n
  {
    if n > 0 {
      PathThrough(g, seen, tid, n - 1, p);
      ThroughStep(g, seen, tid, n, p);
    }
  }

  lemma ThroughStep(g: Graph, seen: set<TypeId>, tid: TypeId, n: nat, p: Path)
    requires GoodGraph(g) && Registered(g.reg, tid) && seen <= AllTypes(g) && tid !in seen && 0 < n <= |Edges(g, tid)|
    ensures p in PathsThrough(g, seen, tid, n) <==>
      p in PathsThrough(g, seen, tid, n - 1) || (Onward(g, seen, tid, p) && p[0] == n - 1)
  {
    SeenGrows(g, seen, tid);
    PrefixedMember(n - 1, Paths(g, seen + {tid}, Edges(g, tid)[n - 1].target), p);
  }

  lemma PrefixedMember(i: nat, paths: seq<Path>, p: Path)
    ensures p in Prefixed(i, paths) <==> p != [] && p[0] == i && p[1..] in paths
  {
    if p in Prefixed(i, paths) {
      var k :| 0 <= k < |paths| && p == [i] + paths[k];
      assert p[1..] == paths[k];
    }
    if p != [] && p[0] == i && p[1..] in paths {
      var k :| 0 <= k < |paths| && paths[k] == p[1..];
      assert Prefixed(i, paths)[k] == p;
    }
  }

  // Preorder: a path comes before its continuations and before those that take a later edge.
  predicate Before(p: Path, q: Path) {
    q != [] && (p == [] || p[0] < q[0] || (p[0] == q[0] && Before(p[1..], q[1..])))
  }

  ghost predicate Increasing(paths: seq<Path>) {
    forall i, j :: 0 <= i < j < |paths| ==> Before(paths[i], paths[j])
  }

  lemma {:induction false} BeforeIsStrict(p: Path)
    ensures !Before(p, p)
    decreases |p|
  {
    if p != [] {
      BeforeIsStrict(p[1..]);
    }
  }

  lemma {:induction false} PathsIncreasing(g: Graph, seen: set<TypeId>, tid: TypeId)
    requires GoodGraph(g) && Registered(g.reg, tid) && seen <= AllTypes(g)
    ensures Increasing(Paths(g, seen, tid))
    decreases |g.reg.types| - |seen|, 1, 0
  {
    if tid !in seen {
      var n := |Edges(g, tid)|;
      ThroughIncreasing(g, seen, tid, n);
      var later := PathsThrough(g, seen, tid, n);
      forall j | 0 <= j < |later| ensures Before([], later[j]) {
        PathThrough(g, seen, tid, n, later[j]);
      }
    }
  }

  lemma {:induction false} ThroughIncreasing(g: Graph, seen: set<TypeId>, tid: TypeId, n: nat)
    requires GoodGraph(g) && Registered(g.reg, tid) && seen <= AllTypes(g) && tid !in seen && n <= |Edges(g, tid)|
    ensures Increasing(PathsThrough(g, seen, tid, n))
    decreases |g.reg.types| - |seen|, 0, n
  {
    if n > 0 {
      SeenGrows(g, seen, tid);
      var below, later := PathsThrough(g, seen, tid, n - 1), Paths(g, seen + {tid}, Edges(g, tid)[n - 1].target);
      assert Increasing(below) by {
        ThroughIncreasing(g, seen, tid, n - 1);
      }
      assert Increasing(later) by {
        PathsIncreasing(g, seen + {tid}, Edges(g, tid)[n - 1].target);
      }
      assert AllEarlier(below, n - 1) by {
        ThroughEarlier(g, seen, tid, n - 1);
      }
      IncreasingConcat(below, n - 1, later);
    }
  }

  ghost predicate AllEarlier(paths: seq<Path>, n: nat) {
    forall p :: p in paths ==> p != [] && p[0] < n
  }

  lemma ThroughEarlier(g: Graph, seen: set<TypeId>, tid: TypeId, n: nat)
    requires GoodGraph(g) && Registered(g.reg, tid) && seen <= AllTypes(g) && tid !in seen && n <= |Edges(g, tid)|
    ensures AllEarlier(PathsThrough(g, seen, tid, n), n)
  {
    forall p | p in PathsThrough(g, seen, tid, n) ensures p != [] && p[0] < n {
      PathThrough(g, seen, tid, n, p);
    }
  }

  lemma IncreasingConcat(below: seq<Path>, k: nat, paths: seq<Path>)
    requires Increasing(below) && Increasing(paths)
    requires AllEarlier(below, k)
    ensures Increasing(below + Prefixed(k, paths))
  {
    var all := below + Prefixed(k, paths);
    forall i, j | 0 <= i < j < |all| ensures Before(all[i], all[j]) {
      if i < |below| <= j {
        assert all[i] == below[i] && all[i] in below;
      }
    }
  }

  // ----- Entries

  function Entries(g: Graph, labels: seq<string>, tid: TypeId, paths: seq<Path>): seq<(TypeId, string)>
    requires GoodGraph(g) && Registered(g.reg, tid)
  {
    seq(|paths|, k requires 0 <= k < |paths| => EntryOf(g, labels, tid, paths[k]))
  }

  // What a gathering from root records.
  function Gathered(g: Graph, root: TypeId): seq<(TypeId, string)>
    requires GoodGraph(g) && Registered(g.reg, root)
  {
    Entries(g, [], root, Paths(g, {}, root))
  }

  // Entering the target of an edge extends the current path by its name.
  lemma EntriesVia(g: Graph, labels: seq<string>, tid: TypeId, i: nat, paths: seq<Path>)
    requires GoodGraph(g) && Registered(g.reg, tid) && i < |Edges(g, tid)|
    ensures Entries(g, labels, tid, Prefixed(i, paths)) ==
      Entries(g, labels + [Edges(g, tid)[i].name], Edges(g, tid)[i].target, paths)
  {
    var e := Edges(g, tid)[i];
    forall k | 0 <= k < |paths|
      ensures EntryOf(g, labels, tid, [i] + paths[k]) == EntryOf(g, labels + [e.name], e.target, paths[k])
    {
      var rest := Follow(g, e.target, paths[k]);
      assert ([i] + paths[k])[1..] == paths[k];
      assert labels + ([e.name] + rest.1) == labels + [e.name] + rest.1;
    }
  }

  lemma EntriesConcat(g: Graph, labels: seq<string>, tid: TypeId, a: seq<Path>, b: seq<Path>)
    requires GoodGraph(g) && Registered(g.reg, tid)
    ensures Entries(g, labels, tid, a + b) == Entries(g, labels, tid, a) + Entries(g, labels, tid, b)
  {
  }

  // ----- The object

  ghost function SetOf(stack: seq<TypeId>): set<TypeId> {
    set t | t in stack
  }

  lemma SetOfPush(stack: seq<TypeId>, tid: TypeId)
    ensures SetOf(stack + [tid]) == SetOf(stack) + {tid}
  {
  }

  lemma PopPush<T>(stack: seq<T>, x: T)
    ensures (stack + [x])[..|stack + [x]| - 1] == stack
  {
  }

  // The type graph walked and the state in which the walk arrived at a type.
  datatype Visit = Visit(g: Graph, labels: seq<string>, stack: seq<TypeId>, before: seq<(TypeId, string)>)

  // What the output is once the first n edges of tid were followed.
  ghost function OutputAfter(v: Visit, tid: TypeId, n: nat): seq<(TypeId, string)>
    requires GoodGraph(v.g) && Registered(v.g.reg, tid) && SetOf(v.stack) <= AllTypes(v.g)
    requires tid !in v.stack && n <= |Edges(v.g, tid)|
  {
    v.before + Entries(v.g, v.labels, tid, [[]] + PathsThrough(v.g, SetOf(v.stack), tid, n))
  }

  class StaticInformation {
    const reg: Registry
    var output: seq<(TypeId, string)>
    var currentPath: seq<string>
    var alreadyProcessed: seq<TypeId>
    var aggregates: Aggregates

    constructor (reg: Registry, aggregates: Aggregates)
      ensures this.reg == reg && this.aggregates == aggregates
      ensures output == [] && currentPath == [] && alreadyProcessed == []
    {
      this.reg, this.aggregates := reg, aggregates;
      output, currentPath, alreadyProcessed := [], [], [];
    }

    function TypeGraph(): Graph
      reads this
    {
      Graph(reg, aggregates)
    }

    // The stack holds registered types only.
    ghost predicate Valid()
      reads this
    {
      GoodGraph(TypeGraph()) && SetOf(alreadyProcessed) <= AllTypes(TypeGraph())
    }

    method GetCurrentPath() returns (path: string)
      ensures path == PathString(currentPath)
    {
      path := "";
      for i := 0 to |currentPath|
        invariant path == PathString(currentPath[..i])
      {
        assert currentPath[..i + 1][..i] == currentPath[..i];
        path := path + "/" + currentPath[i];
      }
      assert currentPath[..|currentPath|] == currentPath;
    }

    method RecordOutput(tid: TypeId)
      modifies this`output
      ensures output == old(output) + [(tid, PathString(currentPath))]
    {
      var path := GetCurrentPath();
      output := output + [(tid, path)];
    }

    method HasAlreadyBeenProcessed(tid: TypeId) returns (found: bool)
      ensures found <==> tid in alreadyProcessed
    {
      for i := 0 to |alreadyProcessed|
        invariant tid !in alreadyProcessed[..i]
      {
        if alreadyProcessed[i] == tid {
          return true;
        }
      }
      return false;
    }

    // The first n edges of tid were followed and both stacks are as they were before.
    ghost predicate Followed(v: Visit, tid: TypeId, n: nat)
      reads this
    {
      && TypeGraph() == v.g && GoodGraph(v.g) && Registered(v.g.reg, tid) && SetOf(v.stack) <= AllTypes(v.g)
      && currentPath == v.labels && alreadyProcessed == v.stack
      && tid !in v.stack && n <= |Edges(v.g, tid)|
      && output == OutputAfter(v, tid, n)
    }

    // Follow one edge: push its name and the current type, gather, pop both.
    method Enter(ghost v: Visit, tid: TypeId, e: Edge, ghost i: nat)
      requires Followed(v, tid, i)
      requires i < |Edges(v.g, tid)| && Edges(v.g, tid)[i] == e
      modifies this`output, this`currentPath, this`alreadyProcessed
      ensures Followed(v, tid, i + 1)
      decreases |v.g.reg.types| - |SetOf(v.stack)|, 0
    {
      SeenGrows(v.g, SetOf(v.stack), tid);
      SetOfPush(v.stack, tid);
      currentPath := currentPath + [e.name];
      alreadyProcessed := alreadyProcessed + [tid];
      DoGather(v.g, e.target);
      PopPush(v.labels, e.name);
      PopPush(v.stack, tid);
      alreadyProcessed := alreadyProcessed[..|alreadyProcessed| - 1];
      currentPath := currentPath[..|currentPath| - 1];
      OneMoreEdge(v.g, v.labels, SetOf(v.stack), tid, i, v.before);
    }

    method FollowAttribute(ghost v: Visit, tid: TypeId, i: nat, ghost n0: nat) returns (ghost n: nat)
      requires Followed(v, tid, n0)
      requires i < |v.g.reg.types[tid].attributes| && n0 == |AttributeEdges(v.g.reg, tid, i)|
      modifies this`output, this`currentPath, this`alreadyProcessed
      ensures Followed(v, tid, n) && n == |AttributeEdges(v.g.reg, tid, i + 1)|
      decreases |v.g.reg.types| - |SetOf(v.stack)|, 1
    {
      var info := reg.types[tid].attributes[i];
      AttributesInOrder(v.g, tid, i);
      n := n0;
      var e: Edge;
      match info.kind {
        case Pointer(pointee) =>
          // a pointer to a plain Object would lead to too many paths
          if pointee == reg.objectType {
            return;
          }
          e := Edge(info.name, pointee);
        case Container(item) =>
          e := Edge(info.name + "/[i]", item);
        case Value =>
          return;
      }
      Enter(v, tid, e, n0);
      n := n0 + 1;
    }

    method FollowAttributes(ghost v: Visit, tid: TypeId) returns (ghost n: nat)
      requires Followed(v, tid, 0)
      modifies this`output, this`currentPath, this`alreadyProcessed
      ensures Followed(v, tid, n) && n == AttributeTotal(v.g, tid)
      decreases |v.g.reg.types| - |SetOf(v.stack)|, 2
    {
      n := 0;
      for i := 0 to |reg.types[tid].attributes|
        invariant Followed(v, tid, n) && n == |AttributeEdges(v.g.reg, tid, i)|
      {
        n := FollowAttribute(v, tid, i, n);
      }
    }

    method FollowChild(ghost v: Visit, tid: TypeId, j: nat, ghost n0: nat, ghost base: nat) returns (ghost n: nat)
      requires Followed(v, tid, n0) && base == AttributeTotal(v.g, tid) && j < |v.g.reg.types|
      requires n0 == base + |ChildEdges(v.g.reg, tid, j)|
      modifies this`output, this`currentPath, this`alreadyProcessed
      ensures Followed(v, tid, n) && n == base + |ChildEdges(v.g.reg, tid, j + 1)|
      decreases |v.g.reg.types| - |SetOf(v.stack)|, 1
    {
      ChildrenInOrder(v.g, tid, j);
      n := n0;
      if reg.isChildOf(j, tid) {
        Enter(v, tid, Edge("$" + reg.types[j].name, j), n);
        n := n + 1;
      }
    }

    method FollowAggregate(ghost v: Visit, tid: TypeId, k: nat, ghost n0: nat, ghost base: nat) returns (ghost n: nat)
      requires Followed(v, tid, n0) && base == AttributeTotal(v.g, tid) + ChildTotal(v.g, tid)
      requires k < |v.g.aggregates| && n0 == base + |AggregateEdges(v.g.reg, v.g.aggregates, tid, k)|
      modifies this`output, this`currentPath, this`alreadyProcessed
      ensures Followed(v, tid, n) && n == base + |AggregateEdges(v.g.reg, v.g.aggregates, tid, k + 1)|
      decreases |v.g.reg.types| - |SetOf(v.stack)|, 1
    {
      AggregatesInOrder(v.g, tid, k);
      n := n0;
      var tmp := aggregates[k];
      if tmp.0 == tid || tmp.1 == tid {
        var other := 0;
        if tmp.0 == tid {
          other := tmp.1;
        }
        if tmp.1 == tid {
          other := tmp.0;
        }
        Enter(v, tid, Edge("$" + reg.types[other].name, other), n);
        n := n + 1;
      }
    }

    method FollowChildren(ghost v: Visit, tid: TypeId, ghost n0: nat) returns (ghost n: nat)
      requires Followed(v, tid, n0) && n0 == AttributeTotal(v.g, tid)
      modifies this`output, this`currentPath, this`alreadyProcessed
      ensures Followed(v, tid, n) && n == n0 + ChildTotal(v.g, tid)
      decreases |v.g.reg.types| - |SetOf(v.stack)|, 2
    {
      n := n0;
      for j := 0 to |reg.types|
        invariant Followed(v, tid, n) && n == n0 + |ChildEdges(v.g.reg, tid, j)|
      {
        n := FollowChild(v, tid, j, n, n0);
      }
    }

    method FollowAggregates(ghost v: Visit, tid: TypeId, ghost n0: nat) returns (ghost n: nat)
      requires Followed(v, tid, n0) && n0 == AttributeTotal(v.g, tid) + ChildTotal(v.g, tid)
      modifies this`output, this`currentPath, this`alreadyProcessed
      ensures Followed(v, tid, n) && n == |Edges(v.g, tid)|
      decreases |v.g.reg.types| - |SetOf(v.stack)|, 2
    {
      n := n0;
      for k := 0 to |aggregates|
        invariant Followed(v, tid, n) && n == n0 + |AggregateEdges(v.g.reg, v.g.aggregates, tid, k)|
      {
        n := FollowAggregate(v, tid, k, n, n0);
      }
    }

    // Both stacks are left as they were; the output gains one entry per simple path.
    method DoGather(ghost g: Graph, tid: TypeId)
      requires Valid() && TypeGraph() == g && Registered(g.reg, tid)
      modifies this`output, this`currentPath, this`alreadyProcessed
      ensures currentPath == old(currentPath) && alreadyProcessed == old(alreadyProcessed)
      ensures output == old(output) + Entries(g, currentPath, tid, Paths(g, SetOf(alreadyProcessed), tid))
      decreases |g.reg.types| - |SetOf(alreadyProcessed)|, 3
    {
      var found := HasAlreadyBeenProcessed(tid);
      if found {
        assert output == output + [];
        return;
      }
      ghost var v := Visit(g, currentPath, alreadyProcessed, output);
      RecordOutput(tid);
      RecordedFirst(g, currentPath, tid);
      ghost var n := FollowAttributes(v, tid);
      n := FollowChildren(v, tid, n);
      n := FollowAggregates(v, tid, n);
    }

    // Uniquefy gets a copy of the output, so sorting it has no effect.
    method Gather(tid: TypeId)
      requires GoodGraph(TypeGraph()) && Registered(reg, tid) && currentPath == [] && alreadyProcessed == []
      modifies this`output, this`currentPath, this`alreadyProcessed
      ensures currentPath == [] && alreadyProcessed == []
      ensures output == old(output) + Gathered(TypeGraph(), tid)
    {
      assert SetOf([]) == {};
      DoGather(TypeGraph(), tid);
    }

    // The paths recorded for a type, in order.
    method Get(tid: TypeId) returns (paths: seq<string>)
      ensures paths == PathsTo(output, tid)
    {
      paths := [];
      for i := 0 to |output|
        invariant paths == PathsTo(output[..i], tid)
      {
        assert output[..i + 1][..i] == output[..i];
        var tmp := output[i];
        if tmp.0 == tid {
          paths := paths + [tmp.1];
        }
      }
      assert output[..|output|] == output;
    }
  }

  function PathsTo(output: seq<(TypeId, string)>, tid: TypeId): seq<string> {
    if output == [] then []
    else
      var last := output[|output| - 1];
      PathsTo(output[..|output| - 1], tid) + if last.0 == tid then [last.1] else []
  }

  lemma RecordedFirst(g: Graph, labels: seq<string>, tid: TypeId)
    requires GoodGraph(g) && Registered(g.reg, tid)
    ensures Entries(g, labels, tid, [[]] + []) == [(tid, PathString(labels))]
  {
    assert labels + [] == labels;
  }

  lemma OneMoreEdge(g: Graph, labels: seq<string>, seen: set<TypeId>, tid: TypeId, i: nat,
                    before: seq<(TypeId, string)>)
    requires GoodGraph(g) && Registered(g.reg, tid) && seen <= AllTypes(g) && tid !in seen && i < |Edges(g, tid)|
    requires seen + {tid} <= AllTypes(g)
    ensures var e := Edges(g, tid)[i];
      before + Entries(g, labels, tid, [[]] + PathsThrough(g, seen, tid, i))
        + Entries(g, labels + [e.name], e.target, Paths(g, seen + {tid}, e.target))
      == before + Entries(g, labels, tid, [[]] + PathsThrough(g, seen, tid, i + 1))
  {
    var e := Edges(g, tid)[i];
    var paths := Paths(g, seen + {tid}, e.target);
    EntriesVia(g, labels, tid, i, paths);
    EntriesConcat(g, labels, tid, [[]] + PathsThrough(g, seen, tid, i), Prefixed(i, paths));
    assert [[]] + PathsThrough(g, seen, tid, i) + Prefixed(i, paths) == [[]] + PathsThrough(g, seen, tid, i + 1);
  }

  // ----- The loops follow the edges in order

  lemma {:induction false} AttributePrefix(reg: Registry, tid: TypeId, i: nat, n: nat)
    requires Registered(reg, tid) && i <= n <= |reg.types[tid].attributes|
    ensures AttributeEdges(reg, tid, i) <= AttributeEdges(reg, tid, n)
    decreases n
  {
    if i < n {
      AttributePrefix(reg, tid, i, n - 1);
    }
  }

  // Where in the edge list the i-th attribute stands.
  ghost predicate NextEdge(g: Graph, tid: TypeId, at: nat, next: nat, edge: seq<Edge>)
    requires GoodGraph(g) && Registered(g.reg, tid)
  {
    next <= |Edges(g, tid)| && next == at + |edge| && (edge != [] ==> |edge| == 1 && Edges(g, tid)[at] == edge[0])
  }

  lemma AttributesInOrder(g: Graph, tid: TypeId, i: nat)
    requires GoodGraph(g) && Registered(g.reg, tid) && i < |g.reg.types[tid].attributes|
    ensures NextEdge(g, tid, |AttributeEdges(g.reg, tid, i)|, |AttributeEdges(g.reg, tid, i + 1)|,
                     AttributeEdge(g.reg, g.reg.types[tid].attributes[i]))
  {
    AttributePrefix(g.reg, tid, i + 1, |g.reg.types[tid].attributes|);
  }

  lemma {:induction false} ChildPrefix(reg: Registry, tid: TypeId, i: nat, n: nat)
    requires i <= n <= |reg.types|
    ensures ChildEdges(reg, tid, i) <= ChildEdges(reg, tid, n)
    decreases n
  {
    if i < n {
      ChildPrefix(reg, tid, i, n - 1);
    }
  }

  lemma ChildrenInOrder(g: Graph, tid: TypeId, j: nat)
    requires GoodGraph(g) && Registered(g.reg, tid) && j < |g.reg.types|
    ensures var n := |AttributeEdges(g.reg, tid, |g.reg.types[tid].attributes|)|;
      NextEdge(g, tid, n + |ChildEdges(g.reg, tid, j)|, n + |ChildEdges(g.reg, tid, j + 1)|,
               if g.reg.isChildOf(j, tid) then [Edge("$" + g.reg.types[j].name, j)] else [])
  {
    ChildPrefix(g.reg, tid, j + 1, |g.reg.types|);
    var attributes := AttributeEdges(g.reg, tid, |g.reg.types[tid].attributes|);
    var edge := if g.reg.isChildOf(j, tid) then [Edge("$" + g.reg.types[j].name, j)] else [];
    assert attributes + ChildEdges(g.reg, tid, j) + edge == attributes + ChildEdges(g.reg, tid, j + 1);
  }

  lemma {:induction false} AggregatePrefix(reg: Registry, aggregates: Aggregates, tid: TypeId, i: nat, n: nat)
    requires GoodAggregates(reg, aggregates) && i <= n <= |aggregates|
    ensures AggregateEdges(reg, aggregates, tid, i) <= AggregateEdges(reg, aggregates, tid, n)
    decreases n
  {
    if i < n {
      AggregatePrefix(reg, aggregates, tid, i, n - 1);
    }
  }

  lemma AggregatesInOrder(g: Graph, tid: TypeId, k: nat)
    requires GoodGraph(g) && Registered(g.reg, tid) && k < |g.aggregates|
    ensures var n := AttributeTotal(g, tid) + ChildTotal(g, tid);
      NextEdge(g, tid, n + |AggregateEdges(g.reg, g.aggregates, tid, k)|,
               n + |AggregateEdges(g.reg, g.aggregates, tid, k + 1)|,
               AggregateEdge(g.reg, g.aggregates[k], tid))
  {
    AggregatePrefix(g.reg, g.aggregates, tid, k + 1, |g.aggregates|);
    var front := AttributeEdges(g.reg, tid, |g.reg.types[tid].attributes|) + ChildEdges(g.reg, tid, |g.reg.types|);
    var edge := AggregateEdge(g.reg, g.aggregates[k], tid);
    var upTo := AggregateEdges(g.reg, g.aggregates, tid, k);
    assert front + upTo + edge == front + AggregateEdges(g.reg, g.aggregates, tid, k + 1);
  }

  ghost function AttributeTotal(g: Graph, tid: TypeId): nat
    requires Registered(g.reg, tid)
  {
    |AttributeEdges(g.reg, tid, |g.reg.types[tid].attributes|)|
  }

  ghost function ChildTotal(g: Graph, tid: TypeId): nat {
    |ChildEdges(g.reg, tid, |g.reg.types|)|
  }

  // ----- The result of a gathering

  predicate ValidPath(g: Graph, tid: TypeId, p: Path)
    requires GoodGraph(g) && Registered(g.reg, tid)
    decreases |p|
  {
    p == [] || (p[0] < |Edges(g, tid)| && ValidPath(g, Edges(g, tid)[p[0]].target, p[1..]))
  }

  // The types a path runs through, both ends included.
  function TypesAlong(g: Graph, tid: TypeId, p: Path): seq<TypeId>
    requires GoodGraph(g) && Registered(g.reg, tid) && ValidPath(g, tid, p)
    decreases |p|
  {
    if p == [] then [tid] else [tid] + TypesAlong(g, Edges(g, tid)[p[0]].target, p[1..])
  }

  ghost predicate NoRepeats(types: seq<TypeId>, seen: set<TypeId>) {
    && NoDup(types)
    && (forall i :: 0 <= i < |types| ==> types[i] !in seen)
  }

  // A path is simple when it exists and its types are pairwise different (and not yet seen).
  lemma {:induction false} SimpleMeansNoRepeats(g: Graph, seen: set<TypeId>, tid: TypeId, p: Path)
    requires GoodGraph(g) && Registered(g.reg, tid)
    ensures SimplePath(g, seen, tid, p) <==> ValidPath(g, tid, p) && NoRepeats(TypesAlong(g, tid, p), seen)
    decreases |p|
  {
    if p == [] {
      RepeatsSplit(tid, [], seen);
      assert [tid] + [] == [tid];
    } else if p[0] < |Edges(g, tid)| {
      var next := Edges(g, tid)[p[0]].target;
      SimpleMeansNoRepeats(g, seen + {tid}, next, p[1..]);
      if ValidPath(g, next, p[1..]) {
        RepeatsSplit(tid, TypesAlong(g, next, p[1..]), seen);
      }
    }
  }

  lemma RepeatsSplit(tid: TypeId, types: seq<TypeId>, seen: set<TypeId>)
    ensures NoRepeats([tid] + types, seen) <==> tid !in seen && NoRepeats(types, seen + {tid})
  {
    var all := [tid] + types;
    assert forall i :: 0 <= i < |types| ==> all[i + 1] == types[i];
    assert forall i :: 0 < i < |all| ==> all[i] == types[i - 1];
    assert all[0] == tid;
  }

  // One entry per path that exists and repeats no type, no path twice, in preorder.
  lemma GatheredPaths(g: Graph, root: TypeId)
    requires GoodGraph(g) && Registered(g.reg, root)
    ensures forall p: Path :: p in Paths(g, {}, root) <==>
      ValidPath(g, root, p) && NoRepeats(TypesAlong(g, root, p), {})
    ensures forall i, j :: 0 <= i < j < |Paths(g, {}, root)| ==>
      Before(Paths(g, {}, root)[i], Paths(g, {}, root)[j]) && Paths(g, {}, root)[i] != Paths(g, {}, root)[j]
  {
    forall p: Path ensures p in Paths(g, {}, root) <==> ValidPath(g, root, p) && NoRepeats(TypesAlong(g, root, p), {}) {
      PathListed(g, {}, root, p);
      SimpleMeansNoRepeats(g, {}, root, p);
    }
    PathsIncreasing(g, {}, root);
    forall p: Path ensures !Before(p, p) {
      BeforeIsStrict(p);
    }
  }

  ghost predicate Recorded(g: Graph, labels: seq<string>, root: TypeId, paths: seq<Path>, entry: (TypeId, string))
    requires GoodGraph(g) && Registered(g.reg, root)
  {
    exists p :: p in paths && EntryOf(g, labels, root, p) == entry
  }

  lemma RecordedLast(g: Graph, labels: seq<string>, root: TypeId, front: seq<Path>, last: Path, entry: (TypeId, string))
    requires GoodGraph(g) && Registered(g.reg, root)
    ensures Recorded(g, labels, root, front + [last], entry) <==>
      Recorded(g, labels, root, front, entry) || EntryOf(g, labels, root, last) == entry
  {
    assert last in front + [last];
    if Recorded(g, labels, root, front, entry) {
      var p :| p in front && EntryOf(g, labels, root, p) == entry;
      assert p in front + [last];
    }
  }

  lemma PathsToLast(front: seq<(TypeId, string)>, last: (TypeId, string), tid: TypeId, s: string)
    ensures s in PathsTo(front + [last], tid) <==> s in PathsTo(front, tid) || last == (tid, s)
  {
    assert (front + [last])[..|front|] == front;
  }

  // Get answers with the strings of exactly those paths that end in the type.
  lemma {:induction false} GetFindsPaths(g: Graph, labels: seq<string>, root: TypeId, paths: seq<Path>, tid: TypeId,
                                         s: string)
    requires GoodGraph(g) && Registered(g.reg, root)
    ensures s in PathsTo(Entries(g, labels, root, paths), tid) <==> Recorded(g, labels, root, paths, (tid, s))
    decreases |paths|
  {
    if paths != [] {
      var front, last := paths[..|paths| - 1], paths[|paths| - 1];
      GetFindsPaths(g, labels, root, front, tid, s);
      SplitLast(paths);
      RecordedLast(g, labels, root, front, last, (tid, s));
      EntriesConcat(g, labels, root, front, [last]);
      EntryAlone(g, labels, root, last);
      PathsToLast(Entries(g, labels, root, front), EntryOf(g, labels, root, last), tid, s);
    }
  }

  lemma EntryAlone(g: Graph, labels: seq<string>, root: TypeId, p: Path)
    requires GoodGraph(g) && Registered(g.reg, root)
    ensures Entries(g, labels, root, [p]) == [EntryOf(g, labels, root, p)]
  {
  }
}
