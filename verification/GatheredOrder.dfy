/** When what a gathering records is in the order that `Uniquefy` would give it
    (utils/print-introspected-doxygen.cc): a condition on the type graph. */
module GatheredOrder {
  import opened Sequences
  import opened TypeGather
  import opened GatheredEntries

  // ----- The order of entries, step by step

  // std::string and std::pair compare their parts from the left.
  predicate StringBefore(a: string, b: string) {
    b != [] && (a == [] || a[0] < b[0] || (a[0] == b[0] && StringBefore(a[1..], b[1..])))
  }

  predicate EntryBefore(a: (TypeId, string), b: (TypeId, string)) {
    a.0 < b.0 || (a.0 == b.0 && StringBefore(a.1, b.1))
  }

  // What `Uniquefy` would leave: sorted, and nothing twice.
  ghost predicate InOrder(entries: seq<(TypeId, string)>) {
    forall i, j :: 0 <= i < j < |entries| ==> EntryBefore(entries[i], entries[j])
  }

  // Edge k leads on from the recorded path p.
  predicate LeadsOn(g: Graph, root: TypeId, p: Path, k: nat)
    requires GoodGraph(g) && Registered(g.reg, root)
  {
    SimplePath(g, {}, root, p + [k])
  }

  // The type entered is newer than the one left ...
  predicate Climbs(g: Graph, root: TypeId, p: Path, k: nat)
    requires GoodGraph(g) && Registered(g.reg, root)
  {
    LeadsOn(g, root, p, k) ==> Follow(g, root, p).0 < Follow(g, root, p + [k]).0
  }

  // ... and whatever is recorded through an earlier edge comes before it.
  predicate Follows(g: Graph, root: TypeId, p: Path, k: nat, q: Path)
    requires GoodGraph(g) && Registered(g.reg, root)
  {
    LeadsOn(g, root, p, k) && SimplePath(g, {}, root, q) && p < q && q[|p|] < k ==>
      EntryBefore(EntryOf(g, [], root, q), EntryOf(g, [], root, p + [k]))
  }

  ghost predicate StepsInOrder(g: Graph, root: TypeId)
    requires GoodGraph(g) && Registered(g.reg, root)
  {
    (forall p, k :: Climbs(g, root, p, k)) && (forall p, k, q :: Follows(g, root, p, k, q))
  }

  // Two paths in preorder agree up to some point; then one ends, or takes an earlier edge.
  predicate PartAt(a: Path, b: Path, n: nat) {
    n < |b| && n <= |a| && a[..n] == b[..n] && (n == |a| || a[n] < b[n])
  }

  lemma {:induction false} BeforeParts(a: Path, b: Path) returns (n: nat)
    requires Before(a, b)
    ensures PartAt(a, b, n)
    decreases |b|
  {
    if a == [] || a[0] < b[0] {
      n := 0;
    } else {
      n := BeforeParts(a[1..], b[1..]);
      n := n + 1;
      assert a[..n] == [a[0]] + a[1..][..n - 1] && b[..n] == [b[0]] + b[1..][..n - 1];
    }
  }

  lemma {:induction false} PartsBefore(a: Path, b: Path, n: nat)
    requires PartAt(a, b, n)
    ensures Before(a, b) && !Before(b, a) && a != b
    decreases |b|
  {
    if n > 0 {
      assert a[..n][0] == b[..n][0];
      assert a[1..][..n - 1] == a[..n][1..] && b[1..][..n - 1] == b[..n][1..];
      PartsBefore(a[1..], b[1..], n - 1);
    }
  }

  lemma {:induction false} PrefixSimple(g: Graph, seen: set<TypeId>, tid: TypeId, p: Path, n: nat)
    requires GoodGraph(g) && Registered(g.reg, tid) && SimplePath(g, seen, tid, p) && n <= |p|
    ensures SimplePath(g, seen, tid, p[..n])
    decreases n
  {
    if n > 0 {
      PrefixSimple(g, seen + {tid}, Edges(g, tid)[p[0]].target, p[1..], n - 1);
      assert p[..n][1..] == p[1..][..n - 1];
    }
  }

  // Climbing step by step, a path ends no lower than any of its prefixes.
  lemma {:induction false} ClimbsAlong(g: Graph, root: TypeId, p: Path, n: nat)
    requires GoodGraph(g) && Registered(g.reg, root) && SimplePath(g, {}, root, p) && n <= |p|
    requires forall p, k :: Climbs(g, root, p, k)
    ensures n < |p| ==> Follow(g, root, p[..n]).0 < Follow(g, root, p).0
    decreases |p| - n
  {
    if n < |p| {
      PrefixSimple(g, {}, root, p, n + 1);
      assert p[..n] + [p[n]] == p[..n + 1];
      assert Climbs(g, root, p[..n], p[n]);
      ClimbsAlong(g, root, p, n + 1);
      assert p[..|p|] == p;
    }
  }

  lemma StepsOrderEntries(g: Graph, root: TypeId, a: Path, b: Path)
    requires GoodGraph(g) && Registered(g.reg, root) && StepsInOrder(g, root)
    requires SimplePath(g, {}, root, a) && SimplePath(g, {}, root, b) && Before(a, b)
    ensures EntryBefore(EntryOf(g, [], root, a), EntryOf(g, [], root, b))
  {
    var n := BeforeParts(a, b);
    if n == |a| {
      TakeAll(a);
      ClimbsAlong(g, root, b, n);
    } else {
      PrefixSimple(g, {}, root, b, n + 1);
      OneFurther(b, n);
      StepOrdersEntries(g, root, b[..n], b[n], a);
      if n + 1 < |b| {
        ClimbsAlong(g, root, b, n + 1);
      } else {
        TakeAll(b);
      }
    }
  }

  lemma OneFurther(p: Path, n: nat)
    requires n < |p|
    ensures p[..n] + [p[n]] == p[..n + 1]
  {
  }

  lemma StepOrdersEntries(g: Graph, root: TypeId, p: Path, k: nat, q: Path)
    requires GoodGraph(g) && Registered(g.reg, root) && StepsInOrder(g, root)
    requires LeadsOn(g, root, p, k) && SimplePath(g, {}, root, q) && p < q && q[|p|] < k
    ensures EntryBefore(EntryOf(g, [], root, q), EntryOf(g, [], root, p + [k]))
  {
    assert Follows(g, root, p, k, q);
  }

  lemma OrderedEntries(g: Graph, root: TypeId, a: Path, b: Path, n: nat)
    requires GoodGraph(g) && Registered(g.reg, root) && InOrder(Gathered(g, root))
    requires SimplePath(g, {}, root, a) && SimplePath(g, {}, root, b) && PartAt(a, b, n)
    ensures EntryBefore(EntryOf(g, [], root, a), EntryOf(g, [], root, b))
  {
    PartsBefore(a, b, n);
    var i := ListedAt(g, root, a);
    var j := ListedAt(g, root, b);
    PathsIncreasing(g, {}, root);
    assert i < j;
  }

  lemma OrderedSteps(g: Graph, root: TypeId, p: Path, k: nat, q: Path)
    requires GoodGraph(g) && Registered(g.reg, root) && InOrder(Gathered(g, root))
    ensures Climbs(g, root, p, k) && Follows(g, root, p, k, q)
  {
    if LeadsOn(g, root, p, k) {
      var on := p + [k];
      PrefixSimple(g, {}, root, on, |p|);
      assert on[..|p|] == p == p[..|p|];
      OrderedEntries(g, root, p, on, |p|);
      SimpleMeansNoRepeats(g, {}, root, p);
      SimpleMeansNoRepeats(g, {}, root, on);
      NewType(g, root, p, k);
      if SimplePath(g, {}, root, q) && p < q && q[|p|] < k {
        assert q[..|p|] == p;
        OrderedEntries(g, root, q, on, |p|);
      }
    }
  }

  lemma NewType(g: Graph, root: TypeId, p: Path, k: nat)
    requires GoodGraph(g) && Registered(g.reg, root) && SimplePath(g, {}, root, p) && LeadsOn(g, root, p, k)
    ensures Follow(g, root, p + [k]).0 != Follow(g, root, p).0
  {
    SimpleMeansNoRepeats(g, {}, root, p);
    LastEdgeExists(g, {}, root, p, k);
    LastEdge(g, {}, root, p, k);
    EndIsOnPath(g, root, p);
  }

  lemma {:induction false} LastEdgeExists(g: Graph, seen: set<TypeId>, tid: TypeId, p: Path, k: nat)
    requires GoodGraph(g) && Registered(g.reg, tid) && SimplePath(g, seen, tid, p + [k])
    ensures k < |Edges(g, Follow(g, tid, p).0)|
    decreases |p|
  {
    if p != [] {
      assert (p + [k])[1..] == p[1..] + [k];
      LastEdgeExists(g, seen + {tid}, Edges(g, tid)[p[0]].target, p[1..], k);
    }
  }

  // What a gathering records is in order if and only if each step of its paths is.
  lemma InOrderBySteps(g: Graph, root: TypeId)
    requires GoodGraph(g) && Registered(g.reg, root)
    ensures InOrder(Gathered(g, root)) <==> StepsInOrder(g, root)
  {
    var paths, entries := Paths(g, {}, root), Gathered(g, root);
    if StepsInOrder(g, root) {
      PathsIncreasing(g, {}, root);
      forall i, j | 0 <= i < j < |entries| ensures EntryBefore(entries[i], entries[j]) {
        PathListed(g, {}, root, paths[i]);
        PathListed(g, {}, root, paths[j]);
        StepsOrderEntries(g, root, paths[i], paths[j]);
      }
    }
    if InOrder(entries) {
      forall p, k ensures Climbs(g, root, p, k) {
        OrderedSteps(g, root, p, k, []);
      }
      forall p, k, q ensures Follows(g, root, p, k, q) {
        OrderedSteps(g, root, p, k, q);
      }
    }
  }

  // ----- Climbing: the edges that a recorded path in order takes

  // Every edge of the path leads to a later type.
  predicate UpPath(g: Graph, tid: TypeId, p: Path)
    requires GoodGraph(g) && Registered(g.reg, tid)
    decreases |p|
  {
    p == [] || (p[0] < |Edges(g, tid)| && Edges(g, tid)[p[0]].target > tid
                && UpPath(g, Edges(g, tid)[p[0]].target, p[1..]))
  }

  // A path that climbs repeats no type.
  lemma {:induction false} UpIsSimple(g: Graph, seen: set<TypeId>, tid: TypeId, p: Path)
    requires GoodGraph(g) && Registered(g.reg, tid) && UpPath(g, tid, p) && forall t :: t in seen ==> t < tid
    ensures SimplePath(g, seen, tid, p) && ValidPath(g, tid, p)
    decreases |p|
  {
    if p != [] {
      UpIsSimple(g, seen + {tid}, Edges(g, tid)[p[0]].target, p[1..]);
    }
  }

  lemma {:induction false} UpJoin(g: Graph, tid: TypeId, p: Path, q: Path)
    requires GoodGraph(g) && Registered(g.reg, tid) && UpPath(g, tid, p)
    ensures var mid := Follow(g, tid, p);
      && (UpPath(g, tid, p + q) <==> UpPath(g, mid.0, q))
      && Follow(g, tid, p + q) == (Follow(g, mid.0, q).0, mid.1 + Follow(g, mid.0, q).1)
    decreases |p|
  {
    if p == [] {
      assert p + q == q;
      assert [] + Follow(g, tid, q).1 == Follow(g, tid, q).1;
    } else {
      var k, rest := p[0], p[1..];
      var e := Edges(g, tid)[k];
      UpJoin(g, e.target, rest, q);
      FirstAndRest(p);
      UpFirst(g, tid, k, rest);
      UpFirst(g, tid, k, rest + q);
      Reassociate([k], rest, q);
      var far := Follow(g, e.target, rest);
      Reassociate([e.name], far.1, Follow(g, far.0, q).1);
    }
  }

  lemma UpFirst(g: Graph, tid: TypeId, k: nat, rest: Path)
    requires GoodGraph(g) && Registered(g.reg, tid) && k < |Edges(g, tid)|
    ensures var e := Edges(g, tid)[k];
      && (UpPath(g, tid, [k] + rest) <==> e.target > tid && UpPath(g, e.target, rest))
      && Follow(g, tid, [k] + rest) == (Follow(g, e.target, rest).0, [e.name] + Follow(g, e.target, rest).1)
  {
    assert ([k] + rest)[1..] == rest;
  }

  lemma UpOne(g: Graph, tid: TypeId, k: nat)
    requires GoodGraph(g) && Registered(g.reg, tid) && k < |Edges(g, tid)|
    ensures UpPath(g, tid, [k]) <==> Edges(g, tid)[k].target > tid
    ensures Follow(g, tid, [k]) == (Edges(g, tid)[k].target, [Edges(g, tid)[k].name])
  {
    UpFirst(g, tid, k, []);
    Single(k);
    Single(Edges(g, tid)[k].name);
  }

  // Climbing leads from `a` to `tid` without coming by any of `without`.
  predicate Climbable(g: Graph, a: TypeId, tid: TypeId, without: set<TypeId>)
    requires GoodGraph(g) && Registered(g.reg, a)
    decreases |g.reg.types| - a
  {
    a !in without
    && (a == tid || exists k :: 0 <= k < |Edges(g, a)| && Edges(g, a)[k].target > a
                               && Climbable(g, Edges(g, a)[k].target, tid, without))
  }

  lemma {:induction false} ClimbableByPath(g: Graph, a: TypeId, p: Path, without: set<TypeId>)
    requires GoodGraph(g) && Registered(g.reg, a) && UpPath(g, a, p) && ValidPath(g, a, p)
    requires forall t :: t in TypesAlong(g, a, p) ==> t !in without
    ensures Climbable(g, a, Follow(g, a, p).0, without)
    decreases |p|
  {
    assert a in TypesAlong(g, a, p);
    if p != [] {
      ClimbableByPath(g, Edges(g, a)[p[0]].target, p[1..], without);
    }
  }

  lemma {:induction false} PathByClimbing(g: Graph, a: TypeId, tid: TypeId, without: set<TypeId>) returns (p: Path)
    requires GoodGraph(g) && Registered(g.reg, a) && Climbable(g, a, tid, without)
    ensures UpPath(g, a, p) && ValidPath(g, a, p) && Follow(g, a, p).0 == tid
    ensures forall t :: t in TypesAlong(g, a, p) ==> t !in without
    decreases |g.reg.types| - a
  {
    if a == tid {
      p := [];
    } else {
      var k :| 0 <= k < |Edges(g, a)| && Edges(g, a)[k].target > a && Climbable(g, Edges(g, a)[k].target, tid, without);
      var q := PathByClimbing(g, Edges(g, a)[k].target, tid, without);
      UpOne(g, a, k);
      UpJoin(g, a, [k], q);
      p := [k] + q;
      FirstEdge(g, {}, a, k, q);
    }
  }

  lemma {:induction false} ClimbableRegistered(g: Graph, a: TypeId, tid: TypeId, without: set<TypeId>)
    requires GoodGraph(g) && Registered(g.reg, a) && Climbable(g, a, tid, without)
    ensures a <= tid && Registered(g.reg, tid)
    decreases |g.reg.types| - a
  {
    if a != tid {
      var k :| 0 <= k < |Edges(g, a)| && Edges(g, a)[k].target > a && Climbable(g, Edges(g, a)[k].target, tid, without);
      ClimbableRegistered(g, Edges(g, a)[k].target, tid, without);
    }
  }

  // The latest type that climbing from tid comes to.
  function Top(g: Graph, tid: TypeId): (top: TypeId)
    requires GoodGraph(g) && Registered(g.reg, tid)
    ensures Climbable(g, tid, top, {}) && forall t: TypeId :: Climbable(g, tid, t, {}) ==> t <= top
  {
    TopIsLast(g, tid);
    TopBefore(g, tid, |g.reg.types|)
  }

  // The latest of the first n types that it comes to.
  function TopBefore(g: Graph, tid: TypeId, n: nat): (top: TypeId)
    requires GoodGraph(g) && Registered(g.reg, tid)
    ensures Climbable(g, tid, top, {}) && forall t: TypeId :: t < n && Climbable(g, tid, t, {}) ==> t <= top
  {
    if n == 0 then assert Climbable(g, tid, tid, {}); tid
    else if Climbable(g, tid, n - 1, {}) then n - 1
    else TopBefore(g, tid, n - 1)
  }

  lemma TopIsLast(g: Graph, tid: TypeId)
    requires GoodGraph(g) && Registered(g.reg, tid)
    ensures forall t: TypeId :: Climbable(g, tid, t, {}) ==> t < |g.reg.types|
  {
    forall t: TypeId | Climbable(g, tid, t, {}) ensures t < |g.reg.types| {
      ClimbableRegistered(g, tid, t, {});
    }
  }

  // ----- Comparing the strings of two paths that part

  lemma {:induction false} SamePrefix(s: string, a: string, b: string)
    ensures StringBefore(s + a, s + b) <==> StringBefore(a, b)
    decreases |s|
  {
    if s == "" {
      assert s + a == a && s + b == b;
    } else {
      assert (s + a)[1..] == s[1..] + a && (s + b)[1..] == s[1..] + b;
      SamePrefix(s[1..], a, b);
    }
  }

  // Where neither string begins the other, what follows does not matter.
  lemma {:induction false} BeforeExtended(a: string, more: string, b: string)
    requires !(a <= b)
    ensures StringBefore(a + more, b) <==> StringBefore(a, b)
    decreases |a|
  {
    if b != "" && a[0] == b[0] {
      assert (a + more)[1..] == a[1..] + more;
      assert !(a[1..] <= b[1..]) by {
        if a[1..] <= b[1..] {
          FirstAndRest(a);
          FirstAndRest(b);
        }
      }
      BeforeExtended(a[1..], more, b[1..]);
    }
  }

  lemma {:induction false} PathStringJoin(a: seq<string>, b: seq<string>)
    ensures PathString(a + b) == PathString(a) + PathString(b)
    decreases |b|
  {
    if b == [] {
      assert a + b == a && PathString(a) + "" == PathString(a);
    } else {
      var front, last := b[..|b| - 1], b[|b| - 1];
      PathStringJoin(a, front);
      assert (a + b)[..|a + b| - 1] == a + front && (a + b)[|a + b| - 1] == last;
      Reassociate(PathString(a), PathString(front), "/");
      Reassociate(PathString(a), PathString(front) + "/", last);
    }
  }

  lemma PathStringOne(name: string)
    ensures PathString([name]) == "/" + name
  {
    assert [name][..0] == [] && "" + "/" + name == "/" + name;
  }

  lemma {:induction false} PathStringStarts(labels: seq<string>)
    requires labels != []
    ensures PathString(labels) != "" && PathString(labels)[0] == '/'
    decreases |labels|
  {
    if |labels| > 1 {
      PathStringStarts(labels[..|labels| - 1]);
    }
  }

  // No name of an edge goes on where another one of the same type has a slash.
  lemma NoNameInside(reg: Registry, t: TypeId, e: Edge, f: Edge)
    requires Registered(reg, t) && ProperNames(reg) && IsKind(reg, t, e) && IsKind(reg, t, f)
    ensures !(e.name + "/" <= f.name)
  {
    if FromType(reg, f) {
      TypeNameSlashFree(reg, f);
      NoSlashInside(e.name, f.name);
    } else {
      var m: nat :| FromAttribute(reg, t, f, m);
      var name := reg.types[t].attributes[m].name;
      EdgeName(reg, t, f, m);
      if f.name == name {
        NoSlashInside(e.name, f.name);
      } else {
        NotItsOwner(reg, t, e, f, m);
        OneSlashInside(e.name, name);
      }
    }
  }

  lemma TypeNameSlashFree(reg: Registry, f: Edge)
    requires ProperNames(reg) && FromType(reg, f)
    ensures SlashFree(f.name)
  {
    assert SlashFree(reg.types[f.target].name);
  }

  lemma SlashAt(a: string, b: string)
    requires a + "/" <= b
    ensures |a| < |b| && b[|a|] == '/' && b[..|a|] == a
  {
    assert b[..|a| + 1] == a + "/";
    assert b[..|a| + 1][|a|] == '/' && b[..|a| + 1][..|a|] == a;
  }

  lemma NoSlashInside(a: string, b: string)
    requires SlashFree(b)
    ensures !(a + "/" <= b)
  {
    if a + "/" <= b {
      SlashAt(a, b);
    }
  }

  lemma OneSlashInside(a: string, name: string)
    requires SlashFree(name) && a != name
    ensures !(a + "/" <= name + "/[i]")
  {
    var item := name + "/[i]";
    assert item[..|name|] == name;
    if a + "/" <= item {
      SlashAt(a, item);
    }
  }

  // A container edge is the only edge of its attribute.
  lemma NotItsOwner(reg: Registry, t: TypeId, e: Edge, f: Edge, m: nat)
    requires Registered(reg, t) && ProperNames(reg) && IsKind(reg, t, e) && FromAttribute(reg, t, f, m)
    requires f.name != reg.types[t].attributes[m].name
    ensures e.name != reg.types[t].attributes[m].name
  {
    var name := reg.types[t].attributes[m].name;
    assert ProperAttributes(reg.types[t].attributes);
    assert ProperName(name);
    if FromType(reg, e) {
      TypeName(reg, e);
    } else {
      var k: nat :| FromAttribute(reg, t, e, k);
      EdgeName(reg, t, e, k);
      assert e.name == name ==> k == m;
    }
  }

  // Which of two parting paths, the second of which ends there, has the smaller string.
  lemma PartingStrings(labels: seq<string>, a: string, more: seq<string>, b: string)
    requires !(a + "/" <= b)
    ensures StringBefore(PathString(labels + ([a] + more)), PathString(labels + [b])) <==>
      StringBefore(if more == [] then a else a + "/", b)
  {
    var s, rest := PathString(labels), PathString(more);
    PathStringJoin(labels, [a] + more);
    PathStringJoin([a], more);
    PathStringJoin(labels, [b]);
    PathStringOne(a);
    PathStringOne(b);
    Reassociate("/", a, rest);
    SamePrefix(s, "/" + (a + rest), "/" + b);
    SamePrefix("/", a + rest, b);
    if more == [] {
      assert a + rest == a;
    } else {
      PathStringStarts(more);
      FirstAndRest(rest);
      Reassociate(a, "/", rest[1..]);
      BeforeExtended(a + "/", rest[1..], b);
    }
  }

  // ----- The condition on the type graph

  // What climbing through e comes to is recorded before the target of f: it is earlier, or the
  // names decide.
  predicate Precedes(g: Graph, e: Edge, f: Edge)
    requires GoodGraph(g) && Registered(g.reg, e.target)
  {
    || Top(g, e.target) < f.target
    || (Top(g, e.target) == f.target && StringBefore(if e.target == f.target then e.name else e.name + "/", f.name))
  }

  // The edges of the type to later types are in order.
  predicate UpEdgesInOrder(g: Graph, t: TypeId)
    requires GoodGraph(g) && Registered(g.reg, t)
  {
    forall i, k :: 0 <= i < k < |Edges(g, t)| && Edges(g, t)[i].target > t && Edges(g, t)[k].target > t ==>
      Precedes(g, Edges(g, t)[i], Edges(g, t)[k])
  }

  // Edges of the type to earlier types are never taken: all ways from the root come by there.
  predicate NoWayDown(g: Graph, root: TypeId, t: TypeId)
    requires GoodGraph(g) && Registered(g.reg, root) && Registered(g.reg, t)
  {
    forall k :: 0 <= k < |Edges(g, t)| && Edges(g, t)[k].target < t ==>
      !Climbable(g, root, t, {Edges(g, t)[k].target})
  }

  predicate TypesInOrder(g: Graph, root: TypeId)
    requires GoodGraph(g) && Registered(g.reg, root)
  {
    forall t: TypeId :: t < |g.reg.types| && Climbable(g, root, t, {}) ==>
      UpEdgesInOrder(g, t) && NoWayDown(g, root, t)
  }

  // A path through edge i of the type where p ends, and the one that takes edge k there.
  lemma PartingEntries(g: Graph, root: TypeId, p: Path, i: nat, rest: Path, k: nat)
    requires GoodGraph(g) && ProperNames(g.reg) && Registered(g.reg, root) && UpPath(g, root, p)
    requires i < |Edges(g, Follow(g, root, p).0)| && k < |Edges(g, Follow(g, root, p).0)|
    ensures var edges := Edges(g, Follow(g, root, p).0);
      var end := Follow(g, edges[i].target, rest);
      EntryBefore(EntryOf(g, [], root, p + ([i] + rest)), EntryOf(g, [], root, p + [k])) <==>
        end.0 < edges[k].target
        || (end.0 == edges[k].target
            && StringBefore(if end.1 == [] then edges[i].name else edges[i].name + "/", edges[k].name))
  {
    var (t, labels) := Follow(g, root, p);
    var e, f := Edges(g, t)[i], Edges(g, t)[k];
    UpJoin(g, root, p, [i] + rest);
    UpJoin(g, root, p, [k]);
    UpFirst(g, t, i, rest);
    UpOne(g, t, k);
    EdgeKinds(g, t);
    NoNameInside(g.reg, t, e, f);
    var more := Follow(g, e.target, rest).1;
    PartingStrings(labels, e.name, more, f.name);
    Empty(labels + ([e.name] + more));
    Empty(labels + [f.name]);
  }

  lemma Empty<T>(s: seq<T>)
    ensures [] + s == s
  {
  }

  lemma {:induction false} UpGrows(g: Graph, tid: TypeId, p: Path)
    requires GoodGraph(g) && Registered(g.reg, tid) && UpPath(g, tid, p)
    ensures p != [] ==> tid < Follow(g, tid, p).0 && Follow(g, tid, p).1 != []
    ensures p == [] ==> Follow(g, tid, p) == (tid, [])
    decreases |p|
  {
    if p != [] {
      UpGrows(g, Edges(g, tid)[p[0]].target, p[1..]);
    }
  }

  // ----- When a gathering is in order

  // In a gathering in order no step goes down, since the steps of its paths go up.
  lemma {:induction false} RecordedUp(g: Graph, root: TypeId, p: Path)
    requires GoodGraph(g) && Registered(g.reg, root) && SimplePath(g, {}, root, p)
    requires forall q, k :: Climbs(g, root, q, k)
    ensures UpPath(g, root, p)
    decreases |p|
  {
    if p != [] {
      var front, k := p[..|p| - 1], p[|p| - 1];
      SplitLast(p);
      PrefixSimple(g, {}, root, p, |p| - 1);
      RecordedUp(g, root, front);
      UpIsSimple(g, {}, root, front);
      assert LeadsOn(g, root, front, k) && Climbs(g, root, front, k);
      LastEdgeExists(g, {}, root, front, k);
      LastEdge(g, {}, root, front, k);
      UpOne(g, Follow(g, root, front).0, k);
      UpJoin(g, root, front, [k]);
    }
  }

  lemma ReachedOnPath(g: Graph, root: TypeId, p: Path)
    requires GoodGraph(g) && Registered(g.reg, root) && UpPath(g, root, p)
    ensures Climbable(g, root, Follow(g, root, p).0, {})
  {
    UpIsSimple(g, {}, root, p);
    ClimbableByPath(g, root, p, {});
  }

  // ... and conversely, if ways down are blocked, recorded paths climb.
  lemma {:induction false} BlockedMeansUp(g: Graph, root: TypeId, p: Path)
    requires GoodGraph(g) && Registered(g.reg, root) && TypesInOrder(g, root) && SimplePath(g, {}, root, p)
    ensures UpPath(g, root, p)
    decreases |p|
  {
    if p != [] {
      var front, k := p[..|p| - 1], p[|p| - 1];
      SplitLast(p);
      PrefixSimple(g, {}, root, p, |p| - 1);
      BlockedMeansUp(g, root, front);
      StepUp(g, root, front, k);
    }
  }

  lemma StepUp(g: Graph, root: TypeId, p: Path, k: nat)
    requires GoodGraph(g) && Registered(g.reg, root) && TypesInOrder(g, root) && UpPath(g, root, p)
    requires LeadsOn(g, root, p, k)
    ensures k < |Edges(g, Follow(g, root, p).0)| && Edges(g, Follow(g, root, p).0)[k].target > Follow(g, root, p).0
    ensures UpPath(g, root, p + [k])
  {
    var t := Follow(g, root, p).0;
    UpIsSimple(g, {}, root, p);
    LastEdgeExists(g, {}, root, p, k);
    LastEdge(g, {}, root, p, k);
    EndIsOnPath(g, root, p);
    ReachedOnPath(g, root, p);
    var u := Edges(g, t)[k].target;
    assert u != t;
    ClimbableByPath(g, root, p, {u});
    assert NoWayDown(g, root, t);
    UpOne(g, t, k);
    UpJoin(g, root, p, [k]);
  }

  lemma OrderedClimbs(g: Graph, root: TypeId, p: Path, k: nat)
    requires GoodGraph(g) && Registered(g.reg, root) && TypesInOrder(g, root)
    ensures Climbs(g, root, p, k)
  {
    if LeadsOn(g, root, p, k) {
      OnlyFront(g, root, p, k);
      BlockedMeansUp(g, root, p);
      StepUp(g, root, p, k);
      UpOne(g, Follow(g, root, p).0, k);
      UpJoin(g, root, p, [k]);
    }
  }

  lemma OnlyFront(g: Graph, root: TypeId, p: Path, k: nat)
    requires GoodGraph(g) && Registered(g.reg, root) && LeadsOn(g, root, p, k)
    ensures SimplePath(g, {}, root, p)
  {
    PrefixSimple(g, {}, root, p + [k], |p|);
    assert (p + [k])[..|p|] == p;
  }

  lemma OrderedFollows(g: Graph, root: TypeId, p: Path, k: nat, q: Path)
    requires GoodGraph(g) && ProperNames(g.reg) && Registered(g.reg, root) && TypesInOrder(g, root)
    ensures Follows(g, root, p, k, q)
  {
    if LeadsOn(g, root, p, k) && SimplePath(g, {}, root, q) && p < q && q[|p|] < k {
      var i, rest := q[|p|], q[|p| + 1..];
      assert q == p + ([i] + rest);
      OnlyFront(g, root, p, k);
      BlockedMeansUp(g, root, p);
      BlockedMeansUp(g, root, q);
      StepUp(g, root, p, k);
      OrderedSiblings(g, root, p, i, rest, k);
    }
  }

  lemma OrderedSiblings(g: Graph, root: TypeId, p: Path, i: nat, rest: Path, k: nat)
    requires GoodGraph(g) && ProperNames(g.reg) && Registered(g.reg, root) && TypesInOrder(g, root)
    requires UpPath(g, root, p + ([i] + rest)) && UpPath(g, root, p) && i < k
    requires k < |Edges(g, Follow(g, root, p).0)| && Edges(g, Follow(g, root, p).0)[k].target > Follow(g, root, p).0
    ensures EntryBefore(EntryOf(g, [], root, p + ([i] + rest)), EntryOf(g, [], root, p + [k]))
  {
    var t := Follow(g, root, p).0;
    var e, f := Edges(g, t)[i], Edges(g, t)[k];
    UpJoin(g, root, p, [i] + rest);
    UpFirst(g, t, i, rest);
    ReachedOnPath(g, root, p);
    assert UpEdgesInOrder(g, t) && Precedes(g, e, f);
    ReachedOnPath(g, e.target, rest);
    UpGrows(g, e.target, rest);
    PartingEntries(g, root, p, i, rest, k);
  }

  // Steps in order leave no other order of the types.
  lemma StepsBlockWayDown(g: Graph, root: TypeId, t: TypeId)
    requires GoodGraph(g) && Registered(g.reg, root) && Registered(g.reg, t) && StepsInOrder(g, root)
    ensures NoWayDown(g, root, t)
  {
    forall k | 0 <= k < |Edges(g, t)| && Edges(g, t)[k].target < t
      ensures !Climbable(g, root, t, {Edges(g, t)[k].target})
    {
      var u := Edges(g, t)[k].target;
      if Climbable(g, root, t, {u}) {
        var p := PathByClimbing(g, root, t, {u});
        UpOrMet(g, root, p, k);
      }
    }
  }

  lemma UpOrMet(g: Graph, root: TypeId, p: Path, k: nat)
    requires GoodGraph(g) && Registered(g.reg, root) && StepsInOrder(g, root) && UpPath(g, root, p)
    requires ValidPath(g, root, p) && k < |Edges(g, Follow(g, root, p).0)|
    ensures var u := Edges(g, Follow(g, root, p).0)[k].target;
      u > Follow(g, root, p).0 || u in TypesAlong(g, root, p)
  {
    UpIsSimple(g, {}, root, p);
    LastEdge(g, {}, root, p, k);
    assert Climbs(g, root, p, k);
  }

  lemma StepsOrderEdges(g: Graph, root: TypeId, t: TypeId)
    requires GoodGraph(g) && ProperNames(g.reg) && Registered(g.reg, root) && Registered(g.reg, t)
    requires StepsInOrder(g, root) && Climbable(g, root, t, {})
    ensures UpEdgesInOrder(g, t)
  {
    var p := PathByClimbing(g, root, t, {});
    forall i, k | 0 <= i < k < |Edges(g, t)| && Edges(g, t)[i].target > t && Edges(g, t)[k].target > t
      ensures Precedes(g, Edges(g, t)[i], Edges(g, t)[k])
    {
      StepsOrderTwo(g, root, p, i, k);
    }
  }

  lemma StepsOrderTwo(g: Graph, root: TypeId, p: Path, i: nat, k: nat)
    requires GoodGraph(g) && ProperNames(g.reg) && Registered(g.reg, root) && StepsInOrder(g, root)
    requires UpPath(g, root, p) && i < k < |Edges(g, Follow(g, root, p).0)|
    requires Edges(g, Follow(g, root, p).0)[i].target > Follow(g, root, p).0
    requires Edges(g, Follow(g, root, p).0)[k].target > Follow(g, root, p).0
    ensures Precedes(g, Edges(g, Follow(g, root, p).0)[i], Edges(g, Follow(g, root, p).0)[k])
  {
    var t := Follow(g, root, p).0;
    var e := Edges(g, t)[i];
    var rest := PathByClimbing(g, e.target, Top(g, e.target), {});
    UpGrows(g, e.target, rest);
    UpFirst(g, t, i, rest);
    UpOne(g, t, k);
    UpJoin(g, root, p, [i] + rest);
    UpJoin(g, root, p, [k]);
    UpIsSimple(g, {}, root, p + ([i] + rest));
    UpIsSimple(g, {}, root, p + [k]);
    var q := p + ([i] + rest);
    assert p < q && q[|p|] == i;
    StepOrdersEntries(g, root, p, k, q);
    PartingEntries(g, root, p, i, rest, k);
  }

  // The entries of a gathering are in order if and only if, at every type it climbs to, the edges
  // to later types are in order, and edges to earlier types lead back where every way comes by.
  lemma InOrderIff(g: Graph, root: TypeId)
    requires GoodGraph(g) && ProperNames(g.reg) && Registered(g.reg, root)
    ensures InOrder(Gathered(g, root)) <==> TypesInOrder(g, root)
  {
    InOrderBySteps(g, root);
    if TypesInOrder(g, root) {
      forall p, k ensures Climbs(g, root, p, k) {
        OrderedClimbs(g, root, p, k);
      }
      forall p, k, q ensures Follows(g, root, p, k, q) {
        OrderedFollows(g, root, p, k, q);
      }
    } else if StepsInOrder(g, root) {
      forall t: TypeId | t < |g.reg.types| && Climbable(g, root, t, {})
        ensures UpEdgesInOrder(g, t) && NoWayDown(g, root, t)
      {
        StepsOrderEdges(g, root, t);
        StepsBlockWayDown(g, root, t);
      }
    }
  }

  predicate NoEdgeDown(g: Graph, t: TypeId)
    requires GoodGraph(g) && Registered(g.reg, t)
  {
    forall k :: 0 <= k < |Edges(g, t)| ==> Edges(g, t)[k].target >= t
  }

  // Every edge leads to a later type (or nowhere else), and the edges of each type are in order.
  predicate GraphInOrder(g: Graph)
    requires GoodGraph(g)
  {
    forall t: TypeId :: t < |g.reg.types| ==> NoEdgeDown(g, t) && UpEdgesInOrder(g, t)
  }

  lemma GraphOrders(g: Graph, root: TypeId)
    requires GoodGraph(g) && Registered(g.reg, root) && GraphInOrder(g)
    ensures TypesInOrder(g, root)
  {
    forall t: TypeId | t < |g.reg.types| ensures UpEdgesInOrder(g, t) && NoWayDown(g, root, t) {
      assert NoEdgeDown(g, t);
    }
  }

  lemma RootInOrder(g: Graph, t: TypeId)
    requires GoodGraph(g) && Registered(g.reg, t) && TypesInOrder(g, t)
    ensures NoEdgeDown(g, t) && UpEdgesInOrder(g, t)
  {
    assert Climbable(g, t, t, {}) && NoWayDown(g, t, t);
    forall k | 0 <= k < |Edges(g, t)| ensures Edges(g, t)[k].target >= t {
      assert t != Edges(g, t)[k].target ==> Climbable(g, t, t, {Edges(g, t)[k].target});
    }
  }

  ghost predicate AlwaysInOrder(g: Graph)
    requires GoodGraph(g)
  {
    forall root: TypeId :: Registered(g.reg, root) ==> InOrder(Gathered(g, root))
  }

  // So it is from every type if and only if no edge at all leads to an earlier type and the edges
  // of every type are in order.
  lemma AlwaysInOrderIff(g: Graph)
    requires GoodGraph(g) && ProperNames(g.reg)
    ensures AlwaysInOrder(g) <==> GraphInOrder(g)
  {
    if GraphInOrder(g) {
      forall root: TypeId | Registered(g.reg, root) ensures InOrder(Gathered(g, root)) {
        GraphOrders(g, root);
        InOrderIff(g, root);
      }
    }
    if AlwaysInOrder(g) {
      forall t: TypeId | Registered(g.reg, t) ensures NoEdgeDown(g, t) && UpEdgesInOrder(g, t) {
        InOrderIff(g, t);
        RootInOrder(g, t);
      }
    }
  }

  // A type gathered before the newer one that it derives from comes second.
  function DerivedFirst(): Graph {
    Graph(Registry([TypeInfo("Child", []), TypeInfo("Parent", [])], 1,
                   (child, parent) => child == 0 && parent == 1), [])
  }

  lemma DerivedFirstOutOfOrder()
    ensures GoodGraph(DerivedFirst()) && !InOrder(Gathered(DerivedFirst(), 1))
  {
    var g := DerivedFirst();
    var e := Edge("$" + g.reg.types[0].name, 0);
    assert ChildEdges(g.reg, 1, 1) == [] + [e];
    assert ChildEdges(g.reg, 1, 2) == [e] + [];
    assert Edges(g, 1) == [] + [e] + [];
    FirstEdge(g, {}, 1, 0, []);
    Single(0);
    assert !Climbs(g, 1, [], 0);
    InOrderBySteps(g, 1);
  }
}
