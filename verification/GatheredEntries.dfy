/** What `Uniquefy` would have to remove (utils/print-introspected-doxygen.cc): when the recorded
    entries of a gathering repeat.

    An entry is a type and a string; two paths can have equal entries only if they have equal
    labels, and then only if they part at two copies of one edge. */
module GatheredEntries {
  import opened Sequences
  import opened TypeGather

  // ----- Repeated entries, with the labels of a path as a list

  // Equal edge names at one type lead to equal targets.
  ghost predicate Deterministic(g: Graph)
    requires GoodGraph(g)
  {
    forall t: TypeId :: Registered(g.reg, t) ==> NamesDecide(Edges(g, t))
  }

  ghost predicate NamesDecide(edges: seq<Edge>) {
    forall i, j :: 0 <= i < |edges| && 0 <= j < |edges| && edges[i].name == edges[j].name ==> edges[i] == edges[j]
  }

  // Edges i and j of the type where p ends are the same edge twice.
  predicate Parting(g: Graph, root: TypeId, p: Path, i: nat, j: nat)
    requires GoodGraph(g) && Registered(g.reg, root)
  {
    var edges := Edges(g, Follow(g, root, p).0);
    i < j < |edges| && edges[i] == edges[j]
  }

  // What a path does after its first edge.
  lemma FirstEdge(g: Graph, seen: set<TypeId>, tid: TypeId, k: nat, rest: Path)
    requires GoodGraph(g) && Registered(g.reg, tid) && k < |Edges(g, tid)|
    ensures var e := Edges(g, tid)[k];
      && Follow(g, tid, [k] + rest) == (Follow(g, e.target, rest).0, [e.name] + Follow(g, e.target, rest).1)
      && (SimplePath(g, seen, tid, [k] + rest) <==> tid !in seen && SimplePath(g, seen + {tid}, e.target, rest))
      && (ValidPath(g, tid, [k] + rest) <==> ValidPath(g, e.target, rest))
      && (ValidPath(g, e.target, rest) ==> TypesAlong(g, tid, [k] + rest) == [tid] + TypesAlong(g, e.target, rest))
  {
    assert ([k] + rest)[1..] == rest;
  }

  // One edge more at the end.
  lemma {:induction false} LastEdge(g: Graph, seen: set<TypeId>, tid: TypeId, p: Path, i: nat)
    requires GoodGraph(g) && Registered(g.reg, tid) && ValidPath(g, tid, p)
    requires i < |Edges(g, Follow(g, tid, p).0)|
    ensures var e := Edges(g, Follow(g, tid, p).0)[i];
      && Follow(g, tid, p + [i]) == (e.target, Follow(g, tid, p).1 + [e.name])
      && (SimplePath(g, seen, tid, p + [i]) <==>
            SimplePath(g, seen, tid, p) && e.target !in seen && e.target !in TypesAlong(g, tid, p))
    decreases |p|
  {
    if p == [] {
      FirstEdge(g, seen, tid, i, []);
      Single(i);
      Single(Edges(g, tid)[i].name);
    } else {
      var k, rest := p[0], p[1..];
      var e := Edges(g, tid)[k];
      LastEdge(g, seen + {tid}, e.target, rest, i);
      FirstEdge(g, seen, tid, k, rest);
      FirstEdge(g, seen, tid, k, rest + [i]);
      Regroup(k, rest, i, p);
      var far := Follow(g, e.target, rest);
      Reassociate([e.name], far.1, [Edges(g, far.0)[i].name]);
    }
  }

  lemma Single<T>(x: T)
    ensures [x] + [] == [] + [x] == [x]
  {
  }

  lemma Regroup(k: nat, rest: Path, i: nat, p: Path)
    requires p != [] && k == p[0] && rest == p[1..]
    ensures [k] + rest == p && [k] + (rest + [i]) == p + [i]
  {
  }

  lemma SameHead<T>(a: T, b: T, s: seq<T>, t: seq<T>)
    requires [a] + s == [b] + t
    ensures a == b && s == t
  {
    assert ([a] + s)[0] == ([b] + t)[0] && ([a] + s)[1..] == s && ([b] + t)[1..] == t;
  }

  // Different paths with the same labels both have a first edge.
  lemma SameLength(g: Graph, seen: set<TypeId>, tid: TypeId, p: Path, q: Path)
    requires GoodGraph(g) && Registered(g.reg, tid) && p != q
    requires SimplePath(g, seen, tid, p) && SimplePath(g, seen, tid, q) && Follow(g, tid, p).1 == Follow(g, tid, q).1
    ensures p != [] && q != []
  {
  }

  // Two simple paths with equal labels part at a pair of equal edges.
  lemma {:induction false} SameLabelsPart(g: Graph, seen: set<TypeId>, tid: TypeId, p: Path, q: Path)
    returns (stem: Path, i: nat, j: nat)
    requires GoodGraph(g) && Deterministic(g) && Registered(g.reg, tid) && p != q
    requires SimplePath(g, seen, tid, p) && SimplePath(g, seen, tid, q) && Follow(g, tid, p).1 == Follow(g, tid, q).1
    ensures ValidPath(g, tid, stem) && SimplePath(g, seen, tid, stem) && SimplePath(g, seen, tid, stem + [i])
    ensures Parting(g, tid, stem, i, j)
    decreases |p|
  {
    SameLength(g, seen, tid, p, q);
    var edges := Edges(g, tid);
    var k, m, rest, rest' := p[0], q[0], p[1..], q[1..];
    FirstEdge(g, seen, tid, k, rest);
    FirstEdge(g, seen, tid, m, rest');
    Regroup(k, rest, 0, p);
    Regroup(m, rest', 0, q);
    SameHead(edges[k].name, edges[m].name, Follow(g, edges[k].target, rest).1, Follow(g, edges[m].target, rest').1);
    assert NamesDecide(edges);
    if k == m {
      stem, i, j := SameLabelsPart(g, seen + {tid}, edges[k].target, rest, rest');
      FirstEdge(g, seen, tid, k, stem);
      FirstEdge(g, seen, tid, k, stem + [i]);
      Reassociate([k], stem, [i]);
      stem := [k] + stem;
    } else {
      stem := [];
      i, j := if k < m then k else m, if k < m then m else k;
      FirstEdge(g, seen, tid, i, []);
      Single(i);
    }
  }

  // Two recorded paths, different as lists of edges, with the same end and the same labels.
  ghost predicate Ambiguous(g: Graph, root: TypeId, p: Path, q: Path)
    requires GoodGraph(g) && Registered(g.reg, root)
  {
    p != q && SimplePath(g, {}, root, p) && SimplePath(g, {}, root, q) && Follow(g, root, p) == Follow(g, root, q)
  }

  // A recorded path whose last type has the same edge twice, to a type not on the path.
  ghost predicate Doubled(g: Graph, root: TypeId, p: Path, i: nat, j: nat)
    requires GoodGraph(g) && Registered(g.reg, root)
  {
    && ValidPath(g, root, p) && NoRepeats(TypesAlong(g, root, p), {}) && Parting(g, root, p, i, j)
    && Edges(g, Follow(g, root, p).0)[i].target !in TypesAlong(g, root, p)
  }

  // A doubled edge gives two paths that differ in nothing but its number ...
  lemma DoubledIsAmbiguous(g: Graph, root: TypeId, p: Path, i: nat, j: nat)
    requires GoodGraph(g) && Registered(g.reg, root) && Doubled(g, root, p, i, j)
    ensures Ambiguous(g, root, p + [i], p + [j])
  {
    SimpleMeansNoRepeats(g, {}, root, p);
    LastEdge(g, {}, root, p, i);
    LastEdge(g, {}, root, p, j);
    assert (p + [i])[|p|] != (p + [j])[|p|];
  }

  // ... and there is no other way to get such a pair.
  lemma AmbiguousIsDoubled(g: Graph, root: TypeId, p: Path, q: Path) returns (stem: Path, i: nat, j: nat)
    requires GoodGraph(g) && Registered(g.reg, root) && Deterministic(g) && Ambiguous(g, root, p, q)
    ensures Doubled(g, root, stem, i, j)
  {
    stem, i, j := SameLabelsPart(g, {}, root, p, q);
    SimpleMeansNoRepeats(g, {}, root, stem);
    LastEdge(g, {}, root, stem, i);
  }

  ghost predicate SomeAmbiguous(g: Graph, root: TypeId)
    requires GoodGraph(g) && Registered(g.reg, root)
  {
    exists p, q :: Ambiguous(g, root, p, q)
  }

  ghost predicate SomeDoubled(g: Graph, root: TypeId)
    requires GoodGraph(g) && Registered(g.reg, root)
  {
    exists p, i: nat, j: nat :: Doubled(g, root, p, i, j)
  }

  lemma SomePair(g: Graph, root: TypeId, p: Path, q: Path)
    requires GoodGraph(g) && Registered(g.reg, root) && Ambiguous(g, root, p, q)
    ensures SomeAmbiguous(g, root)
  {
  }

  lemma SomeEdge(g: Graph, root: TypeId, p: Path, i: nat, j: nat)
    requires GoodGraph(g) && Registered(g.reg, root) && Doubled(g, root, p, i, j)
    ensures SomeDoubled(g, root)
  {
  }

  lemma IfAmbiguous(g: Graph, root: TypeId)
    requires GoodGraph(g) && Registered(g.reg, root) && Deterministic(g) && SomeAmbiguous(g, root)
    ensures SomeDoubled(g, root)
  {
    var p, q :| Ambiguous(g, root, p, q);
    var stem, i, j := AmbiguousIsDoubled(g, root, p, q);
    SomeEdge(g, root, stem, i, j);
  }

  lemma IfDoubled(g: Graph, root: TypeId)
    requires GoodGraph(g) && Registered(g.reg, root) && SomeDoubled(g, root)
    ensures SomeAmbiguous(g, root)
  {
    var p, i: nat, j: nat :| Doubled(g, root, p, i, j);
    DoubledIsAmbiguous(g, root, p, i, j);
    SomePair(g, root, p + [i], p + [j]);
  }

  // With the labels of a path as a list, repeated entries come from repeated edges only.
  lemma AmbiguousIff(g: Graph, root: TypeId)
    requires GoodGraph(g) && Registered(g.reg, root) && Deterministic(g)
    ensures SomeAmbiguous(g, root) <==> SomeDoubled(g, root)
  {
    if SomeAmbiguous(g, root) {
      IfAmbiguous(g, root);
    } else if SomeDoubled(g, root) {
      IfDoubled(g, root);
    }
  }

  // ----- Labels as strings

  predicate SlashFree(s: string) {
    '/' !in s
  }

  // The label of a container: a name and "/[i]".
  predicate IsItemLabel(s: string) {
    |s| >= 4 && s[|s| - 4..] == "/[i]" && SlashFree(s[..|s| - 4])
  }

  predicate GoodLabel(s: string) {
    (SlashFree(s) && s != "[i]") || IsItemLabel(s)
  }

  predicate GoodLabels(labels: seq<string>) {
    forall i :: 0 <= i < |labels| ==> GoodLabel(labels[i])
  }

  // A string is cut at its last slash in one way only.
  lemma LastSlash(s: string, a: string, t: string, b: string)
    requires s + "/" + a == t + "/" + b && SlashFree(a) && SlashFree(b)
    ensures s == t && a == b
  {
    if |s| < |t| {
      EarlierSlash(s, a, t, b);
    }
    if |t| < |s| {
      EarlierSlash(t, b, s, a);
    }
    assert (s + "/" + a)[..|s|] == s && (t + "/" + b)[..|t|] == t;
    assert (s + "/" + a)[|s| + 1..] == a && (t + "/" + b)[|t| + 1..] == b;
  }

  lemma EarlierSlash(s: string, a: string, t: string, b: string)
    requires s + "/" + a == t + "/" + b && |s| < |t|
    ensures '/' in a
  {
    assert (t + "/" + b)[|t|] == '/';
    assert (s + "/" + a)[|t|] == a[|t| - |s| - 1];
  }

  lemma ItemLabel(s: string, a: string)
    requires IsItemLabel(a)
    ensures s + "/" + a == (s + "/" + a[..|a| - 4]) + "/" + "[i]"
  {
    assert a == a[..|a| - 4] + "/[i]";
  }

  lemma LastLabel(s: string, a: string, t: string, b: string)
    requires s + "/" + a == t + "/" + b && GoodLabel(a) && GoodLabel(b)
    ensures s == t && a == b
  {
    if IsItemLabel(a) {
      ItemLabel(s, a);
    }
    if IsItemLabel(b) {
      ItemLabel(t, b);
    }
    if IsItemLabel(a) && IsItemLabel(b) {
      LastSlash(s + "/" + a[..|a| - 4], "[i]", t + "/" + b[..|b| - 4], "[i]");
      LastSlash(s, a[..|a| - 4], t, b[..|b| - 4]);
      assert a == a[..|a| - 4] + "/[i]" && b == b[..|b| - 4] + "/[i]";
    } else if IsItemLabel(a) {
      LastSlash(s + "/" + a[..|a| - 4], "[i]", t, b);
    } else if IsItemLabel(b) {
      LastSlash(s, a, t + "/" + b[..|b| - 4], "[i]");
    } else {
      LastSlash(s, a, t, b);
    }
  }

  // The labels can be read off the string of a path.
  lemma {:induction false} PathStringInjective(a: seq<string>, b: seq<string>)
    requires GoodLabels(a) && GoodLabels(b) && PathString(a) == PathString(b)
    ensures a == b
    decreases |a|
  {
    if a != [] && b != [] {
      var front, last := a[..|a| - 1], a[|a| - 1];
      var front', last' := b[..|b| - 1], b[|b| - 1];
      LastLabel(PathString(front), last, PathString(front'), last');
      PathStringInjective(front, front');
      assert a == front + [last] && b == front' + [last'];
    }
  }

  // ----- Names as the type system keeps them

  // No slash in a name, no attribute called "[i]" or like a type with "$"; type names are
  // registered once, and so are the attribute names of a type.
  ghost predicate ProperNames(reg: Registry) {
    && (forall t: TypeId :: Registered(reg, t) ==>
          SlashFree(reg.types[t].name) && ProperAttributes(reg.types[t].attributes))
    && (forall t, u :: 0 <= t < u < |reg.types| ==> reg.types[t].name != reg.types[u].name)
  }

  ghost predicate ProperAttributes(attributes: seq<Attribute>) {
    && (forall i :: 0 <= i < |attributes| ==> ProperName(attributes[i].name))
    && (forall i, j :: 0 <= i < j < |attributes| ==> attributes[i].name != attributes[j].name)
  }

  predicate ProperName(name: string) {
    SlashFree(name) && name != "[i]" && !("$" <= name)
  }

  ghost predicate FromAttribute(reg: Registry, t: TypeId, e: Edge, k: nat)
    requires Registered(reg, t)
  {
    k < |reg.types[t].attributes| && AttributeEdge(reg, reg.types[t].attributes[k]) == [e]
  }

  predicate FromType(reg: Registry, e: Edge) {
    Registered(reg, e.target) && e.name == "$" + reg.types[e.target].name
  }

  ghost predicate Kinds(reg: Registry, t: TypeId, edges: seq<Edge>)
    requires Registered(reg, t)
  {
    forall i :: 0 <= i < |edges| ==> IsKind(reg, t, edges[i])
  }

  ghost predicate IsKind(reg: Registry, t: TypeId, e: Edge)
    requires Registered(reg, t)
  {
    FromType(reg, e) || exists k: nat :: FromAttribute(reg, t, e, k)
  }

  lemma {:induction false} AttributeKinds(reg: Registry, t: TypeId, n: nat)
    requires Registered(reg, t) && n <= |reg.types[t].attributes|
    ensures Kinds(reg, t, AttributeEdges(reg, t, n))
  {
    if n > 0 {
      AttributeKinds(reg, t, n - 1);
      var more := AttributeEdge(reg, reg.types[t].attributes[n - 1]);
      if more != [] {
        assert FromAttribute(reg, t, more[0], n - 1);
      }
    }
  }

  lemma {:induction false} ChildKinds(reg: Registry, t: TypeId, n: nat)
    requires Registered(reg, t) && n <= |reg.types|
    ensures Kinds(reg, t, ChildEdges(reg, t, n))
  {
    if n > 0 {
      ChildKinds(reg, t, n - 1);
    }
  }

  lemma {:induction false} AggregateKinds(reg: Registry, aggregates: Aggregates, t: TypeId, n: nat)
    requires GoodAggregates(reg, aggregates) && Registered(reg, t) && n <= |aggregates|
    ensures Kinds(reg, t, AggregateEdges(reg, aggregates, t, n))
  {
    if n > 0 {
      AggregateKinds(reg, aggregates, t, n - 1);
    }
  }

  lemma EdgeKinds(g: Graph, t: TypeId)
    requires GoodGraph(g) && Registered(g.reg, t)
    ensures Kinds(g.reg, t, Edges(g, t))
  {
    AttributeKinds(g.reg, t, |g.reg.types[t].attributes|);
    ChildKinds(g.reg, t, |g.reg.types|);
    AggregateKinds(g.reg, g.aggregates, t, |g.aggregates|);
  }

  // What names can look like, by the kind of edge.
  lemma EdgeName(reg: Registry, t: TypeId, e: Edge, k: nat)
    requires Registered(reg, t) && ProperNames(reg) && FromAttribute(reg, t, e, k)
    ensures var name := reg.types[t].attributes[k].name;
      e.name == name || (e.name == name + "/[i]" && (name + "/[i]")[..|name|] == name)
    ensures GoodLabel(e.name) && !("$" <= e.name)
    ensures SlashFree(e.name) <==> e.name == reg.types[t].attributes[k].name
  {
    var name := reg.types[t].attributes[k].name;
    assert ProperName(name);
    var item := name + "/[i]";
    assert item[|name|] == '/' && item[|item| - 4..] == "/[i]" && item[..|item| - 4] == name;
  }

  lemma TypeName(reg: Registry, e: Edge)
    requires ProperNames(reg) && FromType(reg, e)
    ensures GoodLabel(e.name) && "$" <= e.name && e.name[1..] == reg.types[e.target].name
  {
    assert e.name[0] == '$';
  }

  lemma SameTypeName(reg: Registry, e: Edge, f: Edge)
    requires ProperNames(reg) && FromType(reg, e) && FromType(reg, f) && e.name == f.name
    ensures e == f
  {
    TypeName(reg, e);
    TypeName(reg, f);
  }

  lemma SameAttributeName(reg: Registry, t: TypeId, e: Edge, f: Edge, k: nat, m: nat)
    requires Registered(reg, t) && ProperNames(reg) && e.name == f.name
    requires FromAttribute(reg, t, e, k) && FromAttribute(reg, t, f, m)
    ensures e == f
  {
    EdgeName(reg, t, e, k);
    EdgeName(reg, t, f, m);
    var a, b := reg.types[t].attributes[k].name, reg.types[t].attributes[m].name;
    if SlashFree(e.name) {
      assert a == b;
    } else {
      assert |a| == |b| && a == (a + "/[i]")[..|a|] == (b + "/[i]")[..|b|] == b;
    }
    assert ProperAttributes(reg.types[t].attributes);
    assert k == m;
  }

  lemma SameNameSameEdge(reg: Registry, t: TypeId, e: Edge, f: Edge)
    requires Registered(reg, t) && ProperNames(reg) && e.name == f.name
    requires IsKind(reg, t, e) && IsKind(reg, t, f)
    ensures e == f
  {
    if FromType(reg, e) && FromType(reg, f) {
      SameTypeName(reg, e, f);
    } else if FromType(reg, e) {
      TypeName(reg, e);
      var m: nat :| FromAttribute(reg, t, f, m);
      EdgeName(reg, t, f, m);
    } else {
      var k: nat :| FromAttribute(reg, t, e, k);
      EdgeName(reg, t, e, k);
      if FromType(reg, f) {
        TypeName(reg, f);
      } else {
        var m: nat :| FromAttribute(reg, t, f, m);
        SameAttributeName(reg, t, e, f, k, m);
      }
    }
  }

  lemma ProperNamesDecide(g: Graph)
    requires GoodGraph(g) && ProperNames(g.reg)
    ensures Deterministic(g)
  {
    forall t: TypeId | Registered(g.reg, t) ensures NamesDecide(Edges(g, t)) {
      EdgeKinds(g, t);
      var edges := Edges(g, t);
      forall i, j | 0 <= i < |edges| && 0 <= j < |edges| && edges[i].name == edges[j].name
        ensures edges[i] == edges[j]
      {
        SameNameSameEdge(g.reg, t, edges[i], edges[j]);
      }
    }
  }

  lemma {:induction false} ProperNamesLabel(g: Graph, tid: TypeId, p: Path)
    requires GoodGraph(g) && ProperNames(g.reg) && Registered(g.reg, tid)
    ensures GoodLabels(Follow(g, tid, p).1)
    decreases |p|
  {
    if p != [] && p[0] < |Edges(g, tid)| {
      var e := Edges(g, tid)[p[0]];
      EdgeKinds(g, tid);
      if FromType(g.reg, e) {
        TypeName(g.reg, e);
      } else {
        var k: nat :| FromAttribute(g.reg, tid, e, k);
        EdgeName(g.reg, tid, e, k);
      }
      ProperNamesLabel(g, e.target, p[1..]);
    }
  }

  // ----- When a gathering records nothing twice

  // The same entry twice means the same end and labels twice.
  lemma SameEntry(g: Graph, root: TypeId, p: Path, q: Path)
    requires GoodGraph(g) && ProperNames(g.reg) && Registered(g.reg, root)
    ensures EntryOf(g, [], root, p) == EntryOf(g, [], root, q) <==> Follow(g, root, p) == Follow(g, root, q)
  {
    var a, b := Follow(g, root, p), Follow(g, root, q);
    assert [] + a.1 == a.1 && [] + b.1 == b.1;
    if EntryOf(g, [], root, p) == EntryOf(g, [], root, q) {
      ProperNamesLabel(g, root, p);
      ProperNamesLabel(g, root, q);
      PathStringInjective(a.1, b.1);
    }
  }

  lemma ListedAt(g: Graph, root: TypeId, p: Path) returns (k: nat)
    requires GoodGraph(g) && Registered(g.reg, root) && SimplePath(g, {}, root, p)
    ensures k < |Gathered(g, root)| && Gathered(g, root)[k] == EntryOf(g, [], root, p) && Paths(g, {}, root)[k] == p
  {
    PathListed(g, {}, root, p);
    k :| 0 <= k < |Paths(g, {}, root)| && Paths(g, {}, root)[k] == p;
  }

  lemma DoubledTwice(g: Graph, root: TypeId, p: Path, i: nat, j: nat)
    requires GoodGraph(g) && Registered(g.reg, root) && Doubled(g, root, p, i, j)
    ensures !NoDup(Gathered(g, root))
  {
    DoubledIsAmbiguous(g, root, p, i, j);
    var k := ListedAt(g, root, p + [i]);
    var m := ListedAt(g, root, p + [j]);
    var entries := Gathered(g, root);
    assert k != m && entries[k] == entries[m];
  }

  lemma TwiceDoubled(g: Graph, root: TypeId, i: nat, j: nat) returns (p: Path, k: nat, m: nat)
    requires GoodGraph(g) && ProperNames(g.reg) && Registered(g.reg, root)
    requires i < j < |Gathered(g, root)| && Gathered(g, root)[i] == Gathered(g, root)[j]
    ensures Doubled(g, root, p, k, m)
  {
    var a, b := Paths(g, {}, root)[i], Paths(g, {}, root)[j];
    PathsDiffer(g, root, i, j);
    SameEntry(g, root, a, b);
    PathListed(g, {}, root, a);
    PathListed(g, {}, root, b);
    ProperNamesDecide(g);
    p, k, m := AmbiguousIsDoubled(g, root, a, b);
  }

  lemma PathsDiffer(g: Graph, root: TypeId, i: nat, j: nat)
    requires GoodGraph(g) && Registered(g.reg, root) && i < j < |Paths(g, {}, root)|
    ensures Paths(g, {}, root)[i] != Paths(g, {}, root)[j]
  {
    PathsIncreasing(g, {}, root);
    BeforeIsStrict(Paths(g, {}, root)[i]);
  }

  // A gathering records no entry twice if and only if no recorded path ends at a type with the
  // same edge twice to a type that is not on the path.
  lemma NothingTwiceIff(g: Graph, root: TypeId)
    requires GoodGraph(g) && ProperNames(g.reg) && Registered(g.reg, root)
    ensures NoDup(Gathered(g, root)) <==> !SomeDoubled(g, root)
  {
    if SomeDoubled(g, root) {
      var p, i: nat, j: nat :| Doubled(g, root, p, i, j);
      DoubledTwice(g, root, p, i, j);
    } else if i, j :| 0 <= i < j < |Gathered(g, root)| && Gathered(g, root)[i] == Gathered(g, root)[j] {
      var p, k, m := TwiceDoubled(g, root, i, j);
    }
  }

  // No type has the same edge twice, to another type.
  ghost predicate EdgesOnce(g: Graph)
    requires GoodGraph(g)
  {
    forall t: TypeId :: Registered(g.reg, t) ==> NoneTwice(t, Edges(g, t))
  }

  ghost predicate NoneTwice(t: TypeId, edges: seq<Edge>) {
    forall i, j :: 0 <= i < j < |edges| && edges[i] == edges[j] ==> edges[i].target == t
  }

  // So for every root alike if and only if the type graph has no such edges at all.
  lemma NothingEverTwiceIff(g: Graph)
    requires GoodGraph(g) && ProperNames(g.reg)
    ensures (forall root: TypeId :: Registered(g.reg, root) ==> NoDup(Gathered(g, root))) <==> EdgesOnce(g)
  {
    if EdgesOnce(g) {
      forall root: TypeId | Registered(g.reg, root) ensures NoDup(Gathered(g, root)) {
        NothingTwiceIff(g, root);
        forall p, i: nat, j: nat ensures !Doubled(g, root, p, i, j) {
          EdgesOnceNotDoubled(g, root, p, i, j);
        }
      }
    } else {
      var t: TypeId :| Registered(g.reg, t) && !NoneTwice(t, Edges(g, t));
      var i, j :| 0 <= i < j < |Edges(g, t)| && Edges(g, t)[i] == Edges(g, t)[j] && Edges(g, t)[i].target != t;
      EdgeTwice(g, t, i, j);
    }
  }

  lemma EdgeTwice(g: Graph, t: TypeId, i: nat, j: nat)
    requires GoodGraph(g) && Registered(g.reg, t) && i < j < |Edges(g, t)|
    requires Edges(g, t)[i] == Edges(g, t)[j] && Edges(g, t)[i].target != t
    ensures !NoDup(Gathered(g, t))
  {
    assert Doubled(g, t, [], i, j);
    DoubledTwice(g, t, [], i, j);
  }

  lemma EdgesOnceNotDoubled(g: Graph, root: TypeId, p: Path, i: nat, j: nat)
    requires GoodGraph(g) && EdgesOnce(g) && Registered(g.reg, root)
    ensures !Doubled(g, root, p, i, j)
  {
    if ValidPath(g, root, p) && Parting(g, root, p, i, j) {
      EndIsOnPath(g, root, p);
      var t := Follow(g, root, p).0;
      assert NoneTwice(t, Edges(g, t));
    }
  }

  lemma {:induction false} EndIsOnPath(g: Graph, tid: TypeId, p: Path)
    requires GoodGraph(g) && Registered(g.reg, tid) && ValidPath(g, tid, p)
    ensures Follow(g, tid, p).0 in TypesAlong(g, tid, p)
    decreases |p|
  {
    if p != [] {
      EndIsOnPath(g, Edges(g, tid)[p[0]].target, p[1..]);
    }
  }

  // An aggregation recorded twice, as GetTypicalAggregations records that of ns3::Node and
  // ns3::Icmpv4L4Protocol, makes a gathering from its first type record entries twice.
  lemma AggregatedTwice(g: Graph, i: nat, j: nat)
    requires GoodGraph(g) && i < j < |g.aggregates|
    requires g.aggregates[i] == g.aggregates[j] && g.aggregates[i].0 != g.aggregates[i].1
    ensures !NoDup(Gathered(g, g.aggregates[i].0))
  {
    var tid := g.aggregates[i].0;
    AggregatesInOrder(g, tid, i);
    AggregatesInOrder(g, tid, j);
    AggregatePrefix(g.reg, g.aggregates, tid, i + 1, j);
    var n := AttributeTotal(g, tid) + ChildTotal(g, tid);
    var k, m := n + |AggregateEdges(g.reg, g.aggregates, tid, i)|, n + |AggregateEdges(g.reg, g.aggregates, tid, j)|;
    EdgeTwice(g, tid, k, m);
  }

  function NodeAndIcmp(): Graph {
    Graph(Registry([TypeInfo("Node", []), TypeInfo("Icmp", [])], 0, (child, parent) => false), [(0, 1), (0, 1)])
  }

  lemma NodeAndIcmpRecordsTwice()
    ensures GoodGraph(NodeAndIcmp()) && !NoDup(Gathered(NodeAndIcmp(), 0))
  {
    AggregatedTwice(NodeAndIcmp(), 0, 1);
  }
}
