/** Which edges `DoGather` follows from a type, how often and in which order
    (utils/print-introspected-doxygen.cc), said without the functions that list them. */
module FollowedEdges {
  import opened Sequences
  import opened TypeGather
  import opened GatheredEntries

  // A pointer to anything but a plain Object, or a container.
  predicate Leads(reg: Registry, a: Attribute) {
    a.kind.Container? || (a.kind.Pointer? && a.kind.pointee != reg.objectType)
  }

  ghost function LeadingAttributes(reg: Registry, t: TypeId, n: nat): set<nat>
    requires Registered(reg, t) && n <= |reg.types[t].attributes|
  {
    set k: nat | k < n && Leads(reg, reg.types[t].attributes[k])
  }

  ghost predicate AttributesFollowed(reg: Registry, t: TypeId, n: nat, edges: seq<Edge>, at: seq<nat>)
    requires Registered(reg, t) && n <= |reg.types[t].attributes|
  {
    var attributes := reg.types[t].attributes;
    && Places(at, LeadingAttributes(reg, t, n)) && |edges| == |at|
    && forall i :: 0 <= i < |at| ==>
         var a := attributes[at[i]];
         edges[i] == if a.kind.Pointer? then Edge(a.name, a.kind.pointee) else Edge(a.name + "/[i]", a.kind.item)
  }

  lemma {:induction false} AttributesListed(reg: Registry, t: TypeId, n: nat) returns (at: seq<nat>)
    requires Registered(reg, t) && n <= |reg.types[t].attributes|
    ensures AttributesFollowed(reg, t, n, AttributeEdges(reg, t, n), at)
  {
    if n == 0 {
      at := [];
    } else {
      at := AttributesListed(reg, t, n - 1);
      var before, now := LeadingAttributes(reg, t, n - 1), LeadingAttributes(reg, t, n);
      if Leads(reg, reg.types[t].attributes[n - 1]) {
        assert now == before + {n - 1};
        PlacesAppend(at, before, n - 1, now);
        at := at + [n - 1];
      } else {
        assert now == before;
      }
    }
  }

  ghost function DerivedTypes(reg: Registry, t: TypeId, n: nat): set<nat> {
    set k: nat | k < n && reg.isChildOf(k, t)
  }

  ghost predicate ChildrenFollowed(reg: Registry, t: TypeId, n: nat, edges: seq<Edge>, at: seq<nat>)
    requires n <= |reg.types|
  {
    && Places(at, DerivedTypes(reg, t, n)) && |edges| == |at|
    && forall i :: 0 <= i < |at| ==> edges[i] == Edge("$" + reg.types[at[i]].name, at[i])
  }

  lemma {:induction false} ChildrenListed(reg: Registry, t: TypeId, n: nat) returns (at: seq<nat>)
    requires n <= |reg.types|
    ensures ChildrenFollowed(reg, t, n, ChildEdges(reg, t, n), at)
  {
    if n == 0 {
      at := [];
    } else {
      at := ChildrenListed(reg, t, n - 1);
      var before, now := DerivedTypes(reg, t, n - 1), DerivedTypes(reg, t, n);
      if reg.isChildOf(n - 1, t) {
        assert now == before + {n - 1};
        PlacesAppend(at, before, n - 1, now);
        at := at + [n - 1];
      } else {
        assert now == before;
      }
    }
  }

  // The other type of an aggregation.
  function Partner(pair: (TypeId, TypeId), t: TypeId): TypeId {
    if pair.0 == t then pair.1 else pair.0
  }

  ghost function Aggregations(aggregates: Aggregates, t: TypeId, n: nat): set<nat>
    requires n <= |aggregates|
  {
    set k: nat | k < n && (aggregates[k].0 == t || aggregates[k].1 == t)
  }

  ghost predicate AggregatesFollowed(reg: Registry, aggregates: Aggregates, t: TypeId, n: nat, edges: seq<Edge>,
                                     at: seq<nat>)
    requires GoodAggregates(reg, aggregates) && n <= |aggregates|
  {
    && Places(at, Aggregations(aggregates, t, n)) && |edges| == |at|
    && forall i :: 0 <= i < |at| ==>
         var partner := Partner(aggregates[at[i]], t);
         Registered(reg, partner) && edges[i] == Edge("$" + reg.types[partner].name, partner)
  }

  lemma {:induction false} AggregatesListed(reg: Registry, aggregates: Aggregates, t: TypeId, n: nat)
    returns (at: seq<nat>)
    requires GoodAggregates(reg, aggregates) && n <= |aggregates|
    ensures AggregatesFollowed(reg, aggregates, t, n, AggregateEdges(reg, aggregates, t, n), at)
  {
    if n == 0 {
      at := [];
    } else {
      at := AggregatesListed(reg, aggregates, t, n - 1);
      var edges := AggregateEdges(reg, aggregates, t, n - 1);
      if aggregates[n - 1].0 == t || aggregates[n - 1].1 == t {
        OneMoreAggregate(reg, aggregates, t, n - 1, edges, at);
        at := at + [n - 1];
      } else {
        assert Aggregations(aggregates, t, n) == Aggregations(aggregates, t, n - 1);
      }
    }
  }

  lemma OneMoreAggregate(reg: Registry, aggregates: Aggregates, t: TypeId, k: nat, edges: seq<Edge>, at: seq<nat>)
    requires GoodAggregates(reg, aggregates) && k < |aggregates| && (aggregates[k].0 == t || aggregates[k].1 == t)
    requires AggregatesFollowed(reg, aggregates, t, k, edges, at)
    ensures var partner := Partner(aggregates[k], t);
      && Registered(reg, partner)
      && AggregatesFollowed(reg, aggregates, t, k + 1, edges + [Edge("$" + reg.types[partner].name, partner)], at + [k])
  {
    var before, now := Aggregations(aggregates, t, k), Aggregations(aggregates, t, k + 1);
    assert now == before + {k};
    PlacesAppend(at, before, k, now);
  }

  // The edges of a type are one for each attribute that leads somewhere, then one for each derived
  // type, then one for each aggregation it takes part in, each group in order.
  lemma EdgesListed(g: Graph, t: TypeId) returns (a: seq<nat>, c: seq<nat>, m: seq<nat>)
    requires GoodGraph(g) && Registered(g.reg, t)
    ensures |Edges(g, t)| == |a| + |c| + |m|
    ensures AttributesFollowed(g.reg, t, |g.reg.types[t].attributes|, Edges(g, t)[..|a|], a)
    ensures ChildrenFollowed(g.reg, t, |g.reg.types|, Edges(g, t)[|a|..|a| + |c|], c)
    ensures AggregatesFollowed(g.reg, g.aggregates, t, |g.aggregates|, Edges(g, t)[|a| + |c|..], m)
  {
    var pointed := AttributeEdges(g.reg, t, |g.reg.types[t].attributes|);
    var derived := ChildEdges(g.reg, t, |g.reg.types|);
    var partners := AggregateEdges(g.reg, g.aggregates, t, |g.aggregates|);
    a := AttributesListed(g.reg, t, |g.reg.types[t].attributes|);
    c := ChildrenListed(g.reg, t, |g.reg.types|);
    m := AggregatesListed(g.reg, g.aggregates, t, |g.aggregates|);
    ThreeParts(pointed, derived, partners);
  }

  lemma ThreeParts<T>(a: seq<T>, b: seq<T>, c: seq<T>)
    ensures (a + b + c)[..|a|] == a && (a + b + c)[|a|..|a| + |b|] == b && (a + b + c)[|a| + |b|..] == c
  {
  }

  // ----- Which edges there are

  ghost predicate PointsTo(g: Graph, t: TypeId, e: Edge)
    requires Registered(g.reg, t)
  {
    e.target != g.reg.objectType && Attribute(e.name, Pointer(e.target)) in g.reg.types[t].attributes
  }

  ghost predicate Contains(g: Graph, t: TypeId, e: Edge)
    requires Registered(g.reg, t)
  {
    exists name :: e.name == name + "/[i]" && Attribute(name, Container(e.target)) in g.reg.types[t].attributes
  }

  predicate DerivesFrom(g: Graph, t: TypeId, e: Edge) {
    Registered(g.reg, e.target) && g.reg.isChildOf(e.target, t) && e.name == "$" + g.reg.types[e.target].name
  }

  predicate AggregatedWith(g: Graph, t: TypeId, e: Edge) {
    && Registered(g.reg, e.target) && e.name == "$" + g.reg.types[e.target].name
    && ((t, e.target) in g.aggregates || (e.target, t) in g.aggregates)
  }

  lemma EdgeIff(g: Graph, t: TypeId, e: Edge)
    requires GoodGraph(g) && Registered(g.reg, t)
    ensures e in Edges(g, t) <==>
      PointsTo(g, t, e) || Contains(g, t, e) || DerivesFrom(g, t, e) || AggregatedWith(g, t, e)
  {
    var a, c, m := EdgesListed(g, t);
    AttributeIff(g, t, e, Edges(g, t)[..|a|], a);
    ChildIff(g, t, e, Edges(g, t)[|a|..|a| + |c|], c);
    AggregateIff(g, t, e, Edges(g, t)[|a| + |c|..], m);
    InParts(Edges(g, t), |a|, |c|, e);
  }

  lemma InParts<T>(s: seq<T>, n: nat, m: nat, x: T)
    requires n + m <= |s|
    ensures x in s <==> x in s[..n] || x in s[n..n + m] || x in s[n + m..]
  {
    assert s == s[..n] + s[n..n + m] + s[n + m..];
  }

  lemma AttributeIff(g: Graph, t: TypeId, e: Edge, edges: seq<Edge>, at: seq<nat>)
    requires GoodGraph(g) && Registered(g.reg, t)
    requires AttributesFollowed(g.reg, t, |g.reg.types[t].attributes|, edges, at)
    ensures e in edges <==> PointsTo(g, t, e) || Contains(g, t, e)
  {
    var attributes := g.reg.types[t].attributes;
    if e in edges {
      var i :| 0 <= i < |edges| && edges[i] == e;
      assert at[i] in at;
      var attribute := attributes[at[i]];
      assert attribute == Attribute(attribute.name, attribute.kind) && attribute in attributes;
    }
    if PointsTo(g, t, e) {
      var k :| 0 <= k < |attributes| && attributes[k] == Attribute(e.name, Pointer(e.target));
      assert k in at;
      var i :| 0 <= i < |at| && at[i] == k;
      assert edges[i] == e;
    }
    if Contains(g, t, e) {
      var name :| e.name == name + "/[i]" && Attribute(name, Container(e.target)) in attributes;
      var k :| 0 <= k < |attributes| && attributes[k] == Attribute(name, Container(e.target));
      assert k in at;
      var i :| 0 <= i < |at| && at[i] == k;
      assert edges[i] == e;
    }
  }

  lemma ChildIff(g: Graph, t: TypeId, e: Edge, edges: seq<Edge>, at: seq<nat>)
    requires ChildrenFollowed(g.reg, t, |g.reg.types|, edges, at)
    ensures e in edges <==> DerivesFrom(g, t, e)
  {
    if e in edges {
      var i :| 0 <= i < |edges| && edges[i] == e;
      assert at[i] in at;
    }
    if DerivesFrom(g, t, e) {
      assert e.target in at;
      var i :| 0 <= i < |at| && at[i] == e.target;
      assert edges[i] == e;
    }
  }

  lemma AggregateIff(g: Graph, t: TypeId, e: Edge, edges: seq<Edge>, at: seq<nat>)
    requires GoodGraph(g) && AggregatesFollowed(g.reg, g.aggregates, t, |g.aggregates|, edges, at)
    ensures e in edges <==> AggregatedWith(g, t, e)
  {
    if e in edges {
      var i :| 0 <= i < |edges| && edges[i] == e;
      assert at[i] in at;
      assert g.aggregates[at[i]] in g.aggregates;
      assert g.aggregates[at[i]] == (t, e.target) || g.aggregates[at[i]] == (e.target, t);
    }
    if AggregatedWith(g, t, e) {
      var k :| 0 <= k < |g.aggregates| && (g.aggregates[k] == (t, e.target) || g.aggregates[k] == (e.target, t));
      assert k in at;
      var i :| 0 <= i < |at| && at[i] == k;
      assert edges[i] == e;
    }
  }

  // ----- Plain Objects

  // No step of a recorded path goes by an attribute that points to a plain Object.
  lemma PlainObjectNotEntered(g: Graph, root: TypeId, p: Path, j: nat, k: nat)
    requires GoodGraph(g) && ProperNames(g.reg) && Registered(g.reg, root) && p in Paths(g, {}, root) && j < |p|
    requires k < |g.reg.types[Follow(g, root, p[..j]).0].attributes|
    requires g.reg.types[Follow(g, root, p[..j]).0].attributes[k].kind == Pointer(g.reg.objectType)
    ensures var t := Follow(g, root, p[..j]).0;
      p[j] < |Edges(g, t)| && Edges(g, t)[p[j]].name != g.reg.types[t].attributes[k].name
  {
    var t := Follow(g, root, p[..j]).0;
    PathListed(g, {}, root, p);
    StepExists(g, {}, root, p, j);
    var e := Edges(g, t)[p[j]];
    EdgeIff(g, t, e);
    NotByPlainObject(g, t, e, k);
  }

  lemma {:induction false} StepExists(g: Graph, seen: set<TypeId>, tid: TypeId, p: Path, j: nat)
    requires GoodGraph(g) && Registered(g.reg, tid) && SimplePath(g, seen, tid, p) && j < |p|
    ensures p[j] < |Edges(g, Follow(g, tid, p[..j]).0)|
    decreases j
  {
    if j > 0 {
      var u := Edges(g, tid)[p[0]].target;
      StepExists(g, seen + {tid}, u, p[1..], j - 1);
      assert p[..j][1..] == p[1..][..j - 1];
    }
  }

  lemma NotByPlainObject(g: Graph, t: TypeId, e: Edge, k: nat)
    requires GoodGraph(g) && ProperNames(g.reg) && Registered(g.reg, t) && e in Edges(g, t)
    requires k < |g.reg.types[t].attributes| && g.reg.types[t].attributes[k].kind == Pointer(g.reg.objectType)
    ensures e.name != g.reg.types[t].attributes[k].name
  {
    var attributes := g.reg.types[t].attributes;
    var name := attributes[k].name;
    assert ProperAttributes(attributes) && ProperName(name);
    EdgeIff(g, t, e);
    if PointsTo(g, t, e) {
      var m :| 0 <= m < |attributes| && attributes[m] == Attribute(e.name, Pointer(e.target));
      assert m != k;
    } else if Contains(g, t, e) {
      var item :| e.name == item + "/[i]" && Attribute(item, Container(e.target)) in attributes;
      assert e.name[|item|] == '/';
    } else {
      assert e.name[0] == '$';
    }
  }

  // A type with nothing but a pointer to a plain Object leads nowhere.
  function OnlyObject(): Graph {
    Graph(Registry([TypeInfo("Object", []), TypeInfo("A", [Attribute("p", Pointer(0))])], 0,
                   (child, parent) => child == 1 && parent == 0), [])
  }

  lemma OnlyObjectRecordsItself()
    ensures GoodGraph(OnlyObject()) && Gathered(OnlyObject(), 1) == [(1, "")]
  {
    var g := OnlyObject();
    assert GoodType(g.reg, g.reg.types[1]);
    if Edges(g, 1) != [] {
      EdgeIff(g, 1, Edges(g, 1)[0]);
      assert false;
    }
    assert PathsThrough(g, {}, 1, 0) == [] && Paths(g, {}, 1) == [[]];
    RecordedFirst(g, [], 1);
  }
}
