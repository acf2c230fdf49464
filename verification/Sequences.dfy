/** Facts about sequences that more than one module uses. */
module Sequences {

  ghost predicate NoDup<T(!new)>(s: seq<T>) {
    forall i, j :: 0 <= i < j < |s| ==> s[i] != s[j]
  }

  lemma TakeAll<T>(s: seq<T>)
    ensures s[..|s|] == s
  {
  }

  lemma SplitLast<T>(s: seq<T>)
    requires s != []
    ensures s == s[..|s| - 1] + [s[|s| - 1]]
  {
  }

  lemma FirstAndRest<T>(s: seq<T>)
    requires s != []
    ensures s == [s[0]] + s[1..]
  {
  }

  lemma Reassociate<T>(a: seq<T>, b: seq<T>, c: seq<T>)
    ensures a + b + c == a + (b + c)
  {
  }

  // Where a property holds among n entries, and among one more.
  lemma OneMorePlace(here: set<int>, there: set<int>, n: nat, hit: bool)
    requires forall i :: i in there <==> (0 <= i < n && i in here) || (hit && i == n)
    requires forall i :: i in here ==> 0 <= i < n
    ensures |there| == |here| + if hit then 1 else 0
  {
    forall i ensures i in there <==> (0 <= i < n && i in here) || (hit && i == n) {
    }
    if hit {
      assert forall i :: i in there <==> i in here + {n};
      assert there == here + {n};
    } else {
      assert forall i :: i in there <==> i in here;
      assert there == here;
    }
  }

  ghost predicate Rising(places: seq<nat>) {
    forall i, j :: 0 <= i < j < |places| ==> places[i] < places[j]
  }

  lemma RisingAppend(places: seq<nat>, n: nat)
    requires Rising(places) && forall i :: 0 <= i < |places| ==> places[i] < n
    ensures Rising(places + [n])
  {
  }

  // Exactly these numbers, in order and each once.
  ghost predicate Places(at: seq<nat>, chosen: set<nat>) {
    Rising(at) && (forall i :: 0 <= i < |at| ==> at[i] in chosen) && forall k :: k in chosen ==> k in at
  }

  lemma PlacesAppend(at: seq<nat>, chosen: set<nat>, n: nat, chosen': set<nat>)
    requires Places(at, chosen) && (forall k :: k in chosen ==> k < n) && chosen' == chosen + {n}
    ensures Places(at + [n], chosen')
  {
    RisingAppend(at, n);
    forall k | k in chosen' ensures k in at + [n] {
      assert k in chosen || k == n;
    }
  }
}
