/** All rearrangements of a list (`permutations`, bindings/python/rad_util.py).

    There are n! of them, with repetitions only if the list has some. */
module Permutations {
  import opened Sequences

  function Insert<T>(s: seq<T>, i: nat, x: T): seq<T>
    requires i <= |s|
  {
    s[..i] + [x] + s[i..]
  }

  // x inserted at each of the first n places of s.
  function Insertions<T>(s: seq<T>, x: T, n: nat): seq<seq<T>>
    requires n <= |s| + 1
  {
    if n == 0 then [] else Insertions(s, x, n - 1) + [Insert(s, n - 1, x)]
  }

  // x inserted at every place of each list, all of length n - 1.
  function InsertEverywhere<T>(lists: seq<seq<T>>, x: T, n: nat): seq<seq<T>>
    requires n > 0 && forall k :: 0 <= k < |lists| ==> |lists[k]| == n - 1
  {
    if lists == [] then []
    else InsertEverywhere(lists[..|lists| - 1], x, n) + Insertions(lists[|lists| - 1], x, n)
  }

  function Perms<T>(s: seq<T>): (lists: seq<seq<T>>)
    ensures forall k :: 0 <= k < |lists| ==> |lists[k]| == |s|
  {
    if |s| <= 1 then [s]
    else
      SameLengths(Perms(s[1..]), s[0], |s|);
      InsertEverywhere(Perms(s[1..]), s[0], |s|)
  }

  lemma {:induction false} InsertionLengths<T>(s: seq<T>, x: T, n: nat)
    requires n <= |s| + 1
    ensures |Insertions(s, x, n)| == n
    ensures forall k :: 0 <= k < n ==> Insertions(s, x, n)[k] == Insert(s, k, x)
    decreases n
  {
    if n > 0 {
      InsertionLengths(s, x, n - 1);
    }
  }

  lemma {:induction false} SameLengths<T>(lists: seq<seq<T>>, x: T, n: nat)
    requires n > 0 && forall k :: 0 <= k < |lists| ==> |lists[k]| == n - 1
    ensures forall k :: 0 <= k < |InsertEverywhere(lists, x, n)| ==> |InsertEverywhere(lists, x, n)[k]| == n
    decreases |lists|
  {
    if lists != [] {
      SameLengths(lists[..|lists| - 1], x, n);
      InsertionLengths(lists[|lists| - 1], x, n);
    }
  }

  lemma {:induction false} InsertedCount<T>(lists: seq<seq<T>>, x: T, n: nat)
    requires n > 0 && forall k :: 0 <= k < |lists| ==> |lists[k]| == n - 1
    ensures |InsertEverywhere(lists, x, n)| == n * |lists|
    decreases |lists|
  {
    if lists != [] {
      var m := |lists| - 1;
      InsertedCount(lists[..m], x, n);
      InsertionLengths(lists[m], x, n);
      OneMoreTimes(n, m);
    }
  }

  lemma OneMoreTimes(n: nat, m: nat)
    ensures n * (m + 1) == n * m + n
  {
  }

  // The source's loops.
  method Permutations<T>(inputList: seq<T>) returns (outLists: seq<seq<T>>)
    ensures outLists == Perms(inputList)
    decreases |inputList|
  {
    outLists := [];
    if |inputList| > 1 {
      var item := inputList[0];
      var subLists := Permutations(inputList[1..]);
      for k := 0 to |subLists|
        invariant outLists == InsertEverywhere(subLists[..k], item, |inputList|)
      {
        var subList := subLists[k];
        ghost var before := outLists;
        for i := 0 to |inputList|
          invariant outLists == before + Insertions(subList, item, i)
        {
          var newList := subList[..i] + [item] + subList[i..];
          InsertionsAppend(before, subList, item, i);
          outLists := outLists + [newList];
        }
        TakeList(subLists, k);
      }
      TakeAll(subLists);
    } else {
      outLists := [inputList];
    }
  }

  lemma InsertionsAppend<T>(before: seq<seq<T>>, s: seq<T>, x: T, i: nat)
    requires i <= |s|
    ensures before + Insertions(s, x, i) + [Insert(s, i, x)] == before + Insertions(s, x, i + 1)
  {
  }

  lemma TakeList<T>(s: seq<T>, k: nat)
    requires k < |s|
    ensures s[..k + 1][..|s[..k + 1]| - 1] == s[..k] && s[..k + 1][|s[..k + 1]| - 1] == s[k]
  {
  }

  // ----- How many

  function Factorial(n: nat): nat {
    if n == 0 then 1 else n * Factorial(n - 1)
  }

  lemma PermsStep<T>(s: seq<T>)
    requires |s| > 1
    ensures |Perms(s)| == |s| * |Perms(s[1..])|
  {
    InsertedCount(Perms(s[1..]), s[0], |s|);
  }

  lemma SameFactor(n: nat, a: nat, b: nat)
    requires a == b
    ensures n * a == n * b
  {
  }

  lemma {:induction false} PermsCount<T>(s: seq<T>)
    ensures |Perms(s)| == Factorial(|s|)
    decreases |s|
  {
    if |s| <= 1 {
      assert Factorial(1) == 1 * Factorial(0);
    } else {
      PermsCount(s[1..]);
      PermsStep(s);
      SameFactor(|s|, |Perms(s[1..])|, Factorial(|s| - 1));
    }
  }

  // ----- Which

  lemma InsertIsRearrangement<T>(s: seq<T>, i: nat, x: T)
    requires i <= |s|
    ensures multiset(Insert(s, i, x)) == multiset{x} + multiset(s)
  {
    assert s == s[..i] + s[i..];
  }

  ghost predicate InsertedInto<T>(lists: seq<seq<T>>, x: T, n: nat, p: seq<T>)
    requires n > 0 && forall k :: 0 <= k < |lists| ==> |lists[k]| == n - 1
  {
    exists k: nat, i: nat :: k < |lists| && i < n && p == Insert(lists[k], i, x)
  }

  ghost predicate OneInsertion<T>(s: seq<T>, x: T, p: seq<T>) {
    exists i: nat :: i <= |s| && p == Insert(s, i, x)
  }

  lemma InsertionMember<T>(s: seq<T>, x: T, n: nat, p: seq<T>)
    requires n == |s| + 1
    ensures p in Insertions(s, x, n) <==> OneInsertion(s, x, p)
  {
    InsertionLengths(s, x, n);
    if i: nat :| i <= |s| && p == Insert(s, i, x) {
      assert Insertions(s, x, n)[i] == p;
    }
  }

  lemma {:induction false} InsertedMember<T>(lists: seq<seq<T>>, x: T, n: nat, p: seq<T>)
    requires n > 0 && forall k :: 0 <= k < |lists| ==> |lists[k]| == n - 1
    ensures p in InsertEverywhere(lists, x, n) <==> InsertedInto(lists, x, n, p)
    decreases |lists|
  {
    if lists != [] {
      InsertedMember(lists[..|lists| - 1], x, n, p);
      InsertedSplit(lists, x, n, p);
      InsertedLast(lists, x, n, p);
    }
  }

  lemma InsertedSplit<T>(lists: seq<seq<T>>, x: T, n: nat, p: seq<T>)
    requires lists != [] && n > 0 && forall k :: 0 <= k < |lists| ==> |lists[k]| == n - 1
    ensures p in InsertEverywhere(lists, x, n) <==>
      p in InsertEverywhere(lists[..|lists| - 1], x, n) || OneInsertion(lists[|lists| - 1], x, p)
  {
    var a, b := InsertEverywhere(lists[..|lists| - 1], x, n), Insertions(lists[|lists| - 1], x, n);
    assert InsertEverywhere(lists, x, n) == a + b;
    InsertionMember(lists[|lists| - 1], x, n, p);
    InEither(a, b, p);
  }

  lemma InEither<T>(a: seq<T>, b: seq<T>, x: T)
    ensures x in a + b <==> x in a || x in b
  {
  }

  lemma InsertedLast<T>(lists: seq<seq<T>>, x: T, n: nat, p: seq<T>)
    requires lists != [] && n > 0 && forall k :: 0 <= k < |lists| ==> |lists[k]| == n - 1
    ensures InsertedInto(lists, x, n, p) <==>
      InsertedInto(lists[..|lists| - 1], x, n, p) || OneInsertion(lists[|lists| - 1], x, p)
  {
    var m := |lists| - 1;
    if InsertedInto(lists, x, n, p) {
      var k: nat, i: nat :| k < |lists| && i < n && p == Insert(lists[k], i, x);
      assert k < m ==> lists[..m][k] == lists[k];
    }
    if InsertedInto(lists[..m], x, n, p) {
      var k: nat, i: nat :| k < m && i < n && p == Insert(lists[..m][k], i, x);
      assert lists[..m][k] == lists[k];
    }
    if OneInsertion(lists[m], x, p) {
      var i: nat :| i <= |lists[m]| && p == Insert(lists[m], i, x);
      assert m < |lists| && i < n;
    }
  }

  // Exactly the rearrangements of s are listed.
  lemma {:induction false} ListedIffRearrangement<T>(s: seq<T>, p: seq<T>)
    ensures p in Perms(s) <==> multiset(p) == multiset(s)
    decreases |s|
  {
    if |s| <= 1 {
      ShortRearrangement(s, p);
    } else {
      var x, rest := s[0], s[1..];
      var lists := Perms(rest);
      InsertedMember(lists, x, |s|, p);
      if p in Perms(s) {
        var k: nat, i: nat :| k < |lists| && i < |s| && p == Insert(lists[k], i, x);
        assert lists[k] in lists;
        ListedIffRearrangement(rest, lists[k]);
        InsertIsRearrangement(lists[k], i, x);
        HeadAndRest(s);
      }
      if multiset(p) == multiset(s) {
        var sub, i := TakeOut(p, s);
        ListedIffRearrangement(rest, sub);
        var k: nat :| k < |lists| && lists[k] == sub;
      }
    }
  }

  lemma HeadAndRest<T>(s: seq<T>)
    requires s != []
    ensures multiset(s) == multiset{s[0]} + multiset(s[1..])
  {
    assert s == [s[0]] + s[1..];
  }

  // A rearrangement of s is s[0] inserted somewhere into a rearrangement of the rest.
  lemma TakeOut<T>(p: seq<T>, s: seq<T>) returns (sub: seq<T>, i: nat)
    requires s != [] && multiset(p) == multiset(s)
    ensures i < |s| && i <= |sub| && p == Insert(sub, i, s[0]) && multiset(sub) == multiset(s[1..])
  {
    SameMultisetLength(p, s);
    HeadAndRest(s);
    assert s[0] in multiset(p);
    i :| 0 <= i < |p| && p[i] == s[0];
    sub := p[..i] + p[i + 1..];
    assert p == Insert(sub, i, s[0]);
    InsertIsRearrangement(sub, i, s[0]);
    Cancel(multiset{s[0]}, multiset(sub), multiset(s[1..]));
  }

  lemma Cancel<T>(m: multiset<T>, a: multiset<T>, b: multiset<T>)
    requires m + a == m + b
    ensures a == b
  {
    forall x ensures a[x] == b[x] {
      assert (m + a)[x] == (m + b)[x];
    }
  }

  lemma SameMultisetLength<T>(p: seq<T>, s: seq<T>)
    requires multiset(p) == multiset(s)
    ensures |p| == |s|
  {
    assert |multiset(p)| == |p|;
    assert |multiset(s)| == |s|;
  }

  lemma ShortRearrangement<T>(s: seq<T>, p: seq<T>)
    requires |s| <= 1
    ensures p in [s] <==> multiset(p) == multiset(s)
  {
    if multiset(p) == multiset(s) {
      SameMultisetLength(p, s);
      if |s| == 1 {
        assert s[0] in multiset(p);
        assert p[0] == s[0];
      }
      assert p == s;
      assert p == [s][0];
    }
  }

  // ----- Each once

  lemma InsertInjective<T>(a: seq<T>, i: nat, b: seq<T>, j: nat, x: T)
    requires i <= |a| && j <= |b| && x !in a && x !in b && Insert(a, i, x) == Insert(b, j, x)
    ensures i == j && a == b
  {
    var p := Insert(a, i, x);
    assert p[i] == x;
    assert a == p[..i] + p[i + 1..];
    assert b == p[..i] + p[i + 1..];
  }

  lemma {:induction false} InsertedDistinct<T(!new)>(lists: seq<seq<T>>, x: T, n: nat)
    requires n > 0 && forall k :: 0 <= k < |lists| ==> |lists[k]| == n - 1
    requires NoDup(lists) && forall k :: 0 <= k < |lists| ==> x !in lists[k]
    ensures NoDup(InsertEverywhere(lists, x, n))
    decreases |lists|
  {
    if lists != [] {
      var m := |lists| - 1;
      var front, last := lists[..m], lists[m];
      InsertedDistinct(front, x, n);
      InsertionLengths(last, x, n);
      var a, b := InsertEverywhere(front, x, n), Insertions(last, x, n);
      forall i, j | 0 <= i < j < |b| ensures b[i] != b[j] {
        if b[i] == b[j] {
          InsertInjective(last, i, last, j, x);
        }
      }
      forall i, j | 0 <= i < |a| && 0 <= j < |b| ensures a[i] != b[j] {
        InsertedMember(front, x, n, a[i]);
        assert a[i] in a;
        var k: nat, c: nat :| k < m && c < n && a[i] == Insert(front[k], c, x);
        if a[i] == b[j] {
          InsertInjective(front[k], c, last, j, x);
          assert false;
        }
      }
    }
  }

  // Of different items, no rearrangement is listed twice.
  lemma {:induction false} ListedOnce<T(!new)>(s: seq<T>)
    requires NoDup(s)
    ensures NoDup(Perms(s))
    decreases |s|
  {
    if |s| > 1 {
      ListedOnce(s[1..]);
      var lists := Perms(s[1..]);
      forall k | 0 <= k < |lists| ensures s[0] !in lists[k] {
        assert lists[k] in lists;
        ListedIffRearrangement(s[1..], lists[k]);
        assert s[0] !in multiset(s[1..]);
      }
      InsertedDistinct(lists, s[0], |s|);
    }
  }
}
