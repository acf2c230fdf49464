/** `is_rotated` (bindings/python/rad_util.py), by which `find_cycles` recognises a cycle it has
    already yielded. */
module Rotations {

  // b is a with its first k items moved to the end.
  ghost predicate RotatedBy<T>(a: seq<T>, b: seq<T>, k: nat) {
    k <= |a| && b == a[k..] + a[..k]
  }

  ghost predicate Rotation<T>(a: seq<T>, b: seq<T>) {
    exists k: nat :: RotatedBy(a, b, k)
  }

  lemma RotationHead<T>(a: seq<T>, b: seq<T>, k: nat) returns (k': nat)
    requires RotatedBy(a, b, k) && b != []
    ensures k' < |a| && RotatedBy(a, b, k') && a[k'] == b[0]
  {
    k' := if k == |a| then 0 else k;
  }

  // Looks for the head of seq2 in seq1 and compares from there in the doubled seq1.  On two
  // empty lists the source fails on seq2[0].
  method IsRotated<T(==)>(seq1: seq<T>, seq2: seq<T>) returns (rotated: bool)
    requires |seq1| != |seq2| || seq2 != []
    ensures rotated <==> Rotation(seq1, seq2)
  {
    if |seq1| != |seq2| {
      return false;
    }
    var startIndexes: seq<nat> := [];
    var headItem := seq2[0];
    for index1 := 0 to |seq1|
      invariant forall j :: 0 <= j < |startIndexes| ==> startIndexes[j] < |seq1|
      invariant forall i :: 0 <= i < index1 && seq1[i] == headItem ==> i in startIndexes
    {
      if seq1[index1] == headItem {
        startIndexes := startIndexes + [index1];
      }
    }
    var doubleSeq1 := seq1 + seq1;
    for m := 0 to |startIndexes|
      invariant forall i :: 0 <= i < m ==> !RotatedBy(seq1, seq2, startIndexes[i])
    {
      var index1 := startIndexes[m];
      assert doubleSeq1[index1..index1 + |seq1|] == seq1[index1..] + seq1[..index1];
      if doubleSeq1[index1..index1 + |seq1|] == seq2 {
        return true;
      }
    }
    forall k: nat ensures !RotatedBy(seq1, seq2, k) {
      if RotatedBy(seq1, seq2, k) {
        var k' := RotationHead(seq1, seq2, k);
        assert false;
      }
    }
    return false;
  }

  lemma RotationReflexive<T>(a: seq<T>)
    ensures Rotation(a, a)
  {
    assert RotatedBy(a, a, 0);
  }

  lemma RotationSymmetric<T>(a: seq<T>, b: seq<T>)
    requires Rotation(a, b)
    ensures Rotation(b, a)
  {
    var k: nat :| RotatedBy(a, b, k);
    assert RotatedBy(b, a, |a| - k);
  }

  lemma RotationTransitive<T>(a: seq<T>, b: seq<T>, c: seq<T>)
    requires Rotation(a, b) && Rotation(b, c)
    ensures Rotation(a, c)
  {
    var j: nat :| RotatedBy(a, b, j);
    var k: nat :| RotatedBy(b, c, k);
    if j + k <= |a| {
      RotateShort(a, b, c, j, k);
    } else {
      RotateLong(a, b, c, j, k);
    }
  }

  lemma RotateShort<T>(a: seq<T>, b: seq<T>, c: seq<T>, j: nat, k: nat)
    requires RotatedBy(a, b, j) && RotatedBy(b, c, k) && j + k <= |a|
    ensures RotatedBy(a, c, j + k)
  {
    assert b[k..] == a[j + k..] + a[..j];
    assert b[..k] == a[j..j + k];
    assert a[..j] + a[j..j + k] == a[..j + k];
    assert c == a[j + k..] + (a[..j] + a[j..j + k]);
  }

  lemma RotateLong<T>(a: seq<T>, b: seq<T>, c: seq<T>, j: nat, k: nat)
    requires RotatedBy(a, b, j) && RotatedBy(b, c, k) && j + k > |a|
    ensures RotatedBy(a, c, j + k - |a|)
  {
    var l := j + k - |a|;
    assert b[k..] == a[l..j];
    assert b[..k] == a[j..] + a[..l];
    assert a[l..j] + a[j..] == a[l..];
    assert c == (a[l..j] + a[j..]) + a[..l];
  }
}
