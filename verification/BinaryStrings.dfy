/** Binary strings (bindings/python/rad_util.py): `int2bin` by way of hexadecimal digits,
    `bin2int`, and `binary_range`, a ripple-carry counter over a list of characters.

    Strings are written most significant bit first; the counter works on the reversed string,
    least significant bit first. */
module BinaryStrings {
  import opened Options

  function Pow2(n: nat): nat {
    if n == 0 then 1 else 2 * Pow2(n - 1)
  }

  predicate IsBinary(s: string) {
    forall i :: 0 <= i < |s| ==> s[i] == '0' || s[i] == '1'
  }

  function BitOf(c: char): nat {
    if c == '1' then 1 else 0
  }

  // int(s, 2), most significant bit first
  function Bin2Int(s: string): nat {
    if s == [] then 0 else 2 * Bin2Int(s[..|s| - 1]) + BitOf(s[|s| - 1])
  }

  lemma {:induction false} Bin2IntBound(s: string)
    ensures Bin2Int(s) < Pow2(|s|)
    decreases |s|
  {
    if s != [] {
      Bin2IntBound(s[..|s| - 1]);
    }
  }

  lemma {:induction false} Bin2IntConcat(a: string, b: string)
    ensures Bin2Int(a + b) == Bin2Int(a) * Pow2(|b|) + Bin2Int(b)
    decreases |b|
  {
    if b == [] {
      assert a + b == a;
    } else {
      var front, c := b[..|b| - 1], b[|b| - 1];
      Bin2IntConcat(a, front);
      ConcatLast(a, b);
      Doubling(Bin2Int(a), Pow2(|front|));
    }
  }

  // The first digit counts most.
  lemma LeadingDigit(c: char, rest: string)
    requires IsBinary([c]) && IsBinary(rest)
    ensures Bin2Int([c] + rest) == (if c == '1' then Pow2(|rest|) else 0) + Bin2Int(rest)
  {
    OneDigit(c);
    Bin2IntConcat([c], rest);
  }

  lemma OneDigit(c: char)
    requires IsBinary([c])
    ensures Bin2Int([c]) == if c == '1' then 1 else 0
  {
    assert [c][..0] == "" && Bin2Int("") == 0;
  }

  lemma ConcatLast(a: string, b: string)
    requires b != []
    ensures a + b == (a + b[..|b| - 1]) + [b[|b| - 1]]
  {
  }

  lemma Doubling(x: nat, y: nat)
    ensures 2 * (x * y) == x * (2 * y)
  {
  }

  // Two binary strings of the same length and value are the same.
  lemma {:induction false} Bin2IntInjective(a: string, b: string)
    requires IsBinary(a) && IsBinary(b) && |a| == |b| && Bin2Int(a) == Bin2Int(b)
    ensures a == b
    decreases |a|
  {
    if a != [] {
      var n := |a| - 1;
      Bin2IntInjective(a[..n], b[..n]);
      assert a == a[..n] + [a[n]] && b == b[..n] + [b[n]];
    }
  }

  // ----- int2bin

  // hex(i) without its prefix: the hexadecimal digits, most significant first
  function HexDigits(i: nat): (digits: seq<nat>)
    ensures digits != [] && forall k :: 0 <= k < |digits| ==> digits[k] < 16
  {
    if i < 16 then [i] else HexDigits(i / 16) + [i % 16]
  }

  // The table hex2bin.
  function Nibble(d: nat): string
    requires d < 16
  {
    ["0000", "0001", "0010", "0011", "0100", "0101", "0110", "0111",
     "1000", "1001", "1010", "1011", "1100", "1101", "1110", "1111"][d]
  }

  function JoinNibbles(digits: seq<nat>): string
    requires forall k :: 0 <= k < |digits| ==> digits[k] < 16
  {
    if digits == [] then "" else JoinNibbles(digits[..|digits| - 1]) + Nibble(digits[|digits| - 1])
  }

  // s[:-n] and s[-n:]; -0 is 0
  function DropLast(s: string, n: nat): string {
    if n == 0 || n >= |s| then "" else s[..|s| - n]
  }

  function TakeLast(s: string, n: nat): string {
    if n == 0 || n >= |s| then s else s[|s| - n..]
  }

  function Zeros(n: nat): (s: string)
    ensures |s| == n
  {
    if n == 0 then "" else Zeros(n - 1) + "0"
  }

  // None is ValueError.
  function Int2Bin(i: nat, n: nat): Option<string> {
    FitWidth(JoinNibbles(HexDigits(i)), n)
  }

  // Cut or pad at the front to n characters.
  function FitWidth(result: string, n: nat): Option<string> {
    if '1' in DropLast(result, n) then None
    else
      var tail := TakeLast(result, n);
      Some(if |tail| < n then Zeros(n - |tail|) + tail else tail)
  }

  lemma NibbleValue(d: nat)
    requires d < 16
    ensures |Nibble(d)| == 4 && IsBinary(Nibble(d)) && Bin2Int(Nibble(d)) == d
  {
    var s := Nibble(d);
    assert s[..3][..2] == s[..2] && s[..3][..2][..1] == s[..1] && s[..1][..0] == [];
    assert s == s[..3] + [s[3]];
    assert Bin2Int(s[..1]) == BitOf(s[0]);
    assert Bin2Int(s[..2]) == 2 * Bin2Int(s[..2][..1]) + BitOf(s[1]) && s[..2][..1] == s[..1];
    assert Bin2Int(s[..3]) == 2 * Bin2Int(s[..3][..2]) + BitOf(s[2]);
  }

  // One more nibble.
  lemma JoinStep(front: seq<nat>, d: nat)
    requires d < 16 && forall k :: 0 <= k < |front| ==> front[k] < 16
    requires IsBinary(JoinNibbles(front))
    ensures var s := JoinNibbles(front + [d]);
      IsBinary(s) && Bin2Int(s) == 16 * Bin2Int(JoinNibbles(front)) + d && |s| == |JoinNibbles(front)| + 4
  {
    NibbleValue(d);
    assert (front + [d])[..|front|] == front;
    Bin2IntConcat(JoinNibbles(front), Nibble(d));
    SixteenIsPow2();
  }

  lemma SixteenIsPow2()
    ensures Pow2(4) == 16
  {
    assert Pow2(2) == 4;
  }

  // The joined nibbles are i in binary, in full nibbles.
  lemma {:induction false} NibblesValue(i: nat)
    ensures var s := JoinNibbles(HexDigits(i));
      IsBinary(s) && Bin2Int(s) == i && |s| == 4 * |HexDigits(i)|
  {
    if i < 16 {
      JoinStep([], i);
      assert [] + [i] == [i];
    } else {
      NibblesValue(i / 16);
      JoinStep(HexDigits(i / 16), i % 16);
    }
  }

  lemma {:induction false} ZerosValue(n: nat)
    ensures Bin2Int(Zeros(n)) == 0 && IsBinary(Zeros(n))
  {
    if n > 0 {
      ZerosValue(n - 1);
      assert Zeros(n)[..n - 1] == Zeros(n - 1);
    }
  }

  // No one bit means no value.
  lemma {:induction false} NoOneIff(s: string)
    requires IsBinary(s)
    ensures '1' !in s <==> Bin2Int(s) == 0
    decreases |s|
  {
    if s != [] {
      var front, last := s[..|s| - 1], s[|s| - 1];
      NoOneIff(front);
      SplitLast(s);
    }
  }

  lemma SplitLast(s: string)
    requires s != []
    ensures forall c :: c in s <==> c in s[..|s| - 1] || c == s[|s| - 1]
  {
    assert s == s[..|s| - 1] + [s[|s| - 1]];
  }

  // For a positive width: an error exactly when i does not fit into n bits, otherwise n
  // characters that bin2int reads back as i.
  lemma Int2BinCorrect(i: nat, n: nat)
    requires n > 0
    ensures Int2Bin(i, n).None? <==> i >= Pow2(n)
    ensures Int2Bin(i, n).Some? ==>
      |Int2Bin(i, n).value| == n && IsBinary(Int2Bin(i, n).value) && Bin2Int(Int2Bin(i, n).value) == i
  {
    NibblesValue(i);
    FitWidthCorrect(JoinNibbles(HexDigits(i)), n);
  }

  lemma FitWidthCorrect(s: string, n: nat)
    requires IsBinary(s) && n > 0
    ensures FitWidth(s, n).None? <==> Bin2Int(s) >= Pow2(n)
    ensures FitWidth(s, n).Some? ==>
      |FitWidth(s, n).value| == n && IsBinary(FitWidth(s, n).value) && Bin2Int(FitWidth(s, n).value) == Bin2Int(s)
  {
    if n < |s| {
      CutValue(s, n);
    } else {
      ShortValue(s, n);
      PadValue(s, n - |s|);
    }
  }

  lemma ShortValue(s: string, n: nat)
    requires |s| <= n
    ensures Bin2Int(s) < Pow2(n)
  {
    Bin2IntBound(s);
    Pow2Monotone(|s|, n);
  }

  // Cutting off the front keeps the value exactly when no one bit is cut off.
  lemma CutValue(s: string, n: nat)
    requires IsBinary(s) && 0 < n < |s|
    ensures '1' in s[..|s| - n] <==> Bin2Int(s) >= Pow2(n)
    ensures '1' !in s[..|s| - n] ==> Bin2Int(s[|s| - n..]) == Bin2Int(s)
  {
    SplitAt(s, |s| - n);
    CutParts(s[..|s| - n], s[|s| - n..]);
  }

  lemma CutParts(high: string, low: string)
    requires IsBinary(high) && IsBinary(low)
    ensures '1' in high <==> Bin2Int(high + low) >= Pow2(|low|)
    ensures '1' !in high ==> Bin2Int(low) == Bin2Int(high + low)
  {
    Bin2IntConcat(high, low);
    Bin2IntBound(low);
    NoOneIff(high);
    HighPart(Bin2Int(high), Pow2(|low|), Bin2Int(low));
  }

  lemma SplitAt(s: string, k: nat)
    requires k <= |s|
    ensures s == s[..k] + s[k..]
  {
  }

  lemma PadValue(s: string, k: nat)
    requires IsBinary(s)
    ensures IsBinary(Zeros(k) + s) && Bin2Int(Zeros(k) + s) == Bin2Int(s)
  {
    ZerosValue(k);
    Bin2IntConcat(Zeros(k), s);
  }

  lemma HighPart(h: nat, p: nat, l: nat)
    requires l < p
    ensures h * p + l >= p <==> h > 0
    ensures h == 0 ==> h * p + l == l
  {
    if h > 0 {
      assert h * p >= p;
    }
  }

  lemma {:induction false} Pow2Monotone(a: nat, b: nat)
    requires a <= b
    ensures Pow2(a) <= Pow2(b)
    decreases b
  {
    if a < b {
      Pow2Monotone(a, b - 1);
    }
  }

  // With width 0 nothing is checked or cut: the result has whole nibbles.
  lemma Int2BinWidthZero(i: nat)
    ensures Int2Bin(i, 0).Some? && Bin2Int(Int2Bin(i, 0).value) == i && |Int2Bin(i, 0).value| == 4 * |HexDigits(i)| > 0
  {
    NibblesValue(i);
  }

  // ----- binary_range

  function Reverse(s: string): (r: string)
    ensures |r| == |s|
  {
    if s == [] then [] else [s[|s| - 1]] + Reverse(s[..|s| - 1])
  }

  // Least significant bit first.
  function Little(v: string): nat {
    if v == [] then 0 else BitOf(v[0]) + 2 * Little(v[1..])
  }

  lemma {:induction false} ReverseValue(v: string)
    requires IsBinary(v)
    ensures IsBinary(Reverse(v)) && Bin2Int(Reverse(v)) == Little(v)
    decreases |v|
  {
    if v != [] {
      var n := |v| - 1;
      ReverseValue(v[..n]);
      Bin2IntConcat([v[n]], Reverse(v[..n]));
      assert [v[n]][..0] == [];
      LittleTop(v);
    }
  }

  lemma {:induction false} LittleTop(v: string)
    requires v != []
    ensures Little(v) == Little(v[..|v| - 1]) + BitOf(v[|v| - 1]) * Pow2(|v| - 1)
    decreases |v|
  {
    var n := |v| - 1;
    if n == 0 {
      assert v[1..] == [] && v[..0] == [];
    } else {
      LittleTop(v[1..]);
      assert v[1..][..n - 1] == v[..n][1..];
      Doubling(BitOf(v[n]), Pow2(n - 1));
    }
  }

  // Clearing the ones below a zero and setting it adds one.
  lemma {:induction false} LittleSet(v: string, i: nat, c: char)
    requires i < |v|
    ensures Little(v[i := c]) + BitOf(v[i]) * Pow2(i) == Little(v) + BitOf(c) * Pow2(i)
    decreases i
  {
    if i == 0 {
      assert v[0 := c][1..] == v[1..];
    } else {
      LittleSet(v[1..], i - 1, c);
      assert v[i := c][1..] == v[1..][i - 1 := c];
      Doubling(BitOf(v[i]), Pow2(i - 1));
      Doubling(BitOf(c), Pow2(i - 1));
    }
  }

  lemma {:induction false} LittleZeros(n: nat, v: string)
    requires |v| == n && forall i :: 0 <= i < n ==> v[i] == '0'
    ensures Little(v) == 0
  {
    if n > 0 {
      LittleZeros(n - 1, v[1..]);
    }
  }

  lemma LittleBound(v: string)
    requires IsBinary(v)
    ensures Little(v) < Pow2(|v|)
  {
    ReverseValue(v);
    Bin2IntBound(Reverse(v));
  }

  predicate CarryState(v0: string, v: string, toggle: seq<nat>, i: nat) {
    && |v| == |v0| && |toggle| == |v0| + 1 && i <= |v0| && IsBinary(v)
    && (forall j :: i < j <= |v0| ==> toggle[j] == 0)
    && (forall j :: i <= j < |v0| ==> v[j] == v0[j] || toggle[i] != 1)
    && (toggle[i] == 1 ==> Little(v) + Pow2(i) == Little(v0) + 1)
    && (toggle[i] != 1 ==> toggle[i] == 0 && Little(v) == Little(v0) + 1)
  }

  // The ripple-carry step: add one, toggle[bits] telling whether the carry ran out at the top.
  method Increment(v0: string) returns (v: string, overflow: bool)
    requires IsBinary(v0)
    ensures |v| == |v0| && IsBinary(v)
    ensures overflow <==> Little(v0) + 1 == Pow2(|v0|)
    ensures !overflow ==> Little(v) == Little(v0) + 1
  {
    var bits := |v0|;
    v := v0;
    var toggle: seq<nat> := [1] + seq(bits, _ => 0);
    var i := 0;
    while i < bits && toggle[i] == 1
      invariant i <= bits && CarryState(v0, v, toggle, i)
    {
      if v[i] == '0' {
        LittleSet(v, i, '1');
        v := v[i := '1'];
        toggle := toggle[i + 1 := 0];
      } else {
        LittleSet(v, i, '0');
        v := v[i := '0'];
        toggle := toggle[i + 1 := 1];
      }
      i := i + 1;
    }
    LittleBound(v);
    LittleBound(v0);
    overflow := toggle[bits] == 1;
    if overflow {
      assert i == bits;
    }
  }

  // s stands for k in the given width.
  predicate IsEntry(s: string, k: nat, bits: nat) {
    |s| == bits && IsBinary(s) && Bin2Int(s) == k
  }

  // All binary strings of the given width in order; for width 0 the source returns none.
  method BinaryRange(bits: nat) returns (l: seq<string>)
    ensures |l| == if bits == 0 then 0 else Pow2(bits)
    ensures forall k :: 0 <= k < |l| ==> IsEntry(l[k], k, bits) && Int2Bin(k, bits) == Some(l[k])
  {
    l := [];
    var v := seq(bits, _ => '0');
    var done := bits == 0;
    LittleZeros(bits, v);
    LittleBound(v);
    while !done
      invariant |v| == bits && IsBinary(v)
      invariant forall k :: 0 <= k < |l| ==> IsEntry(l[k], k, bits)
      invariant if done then |l| == if bits == 0 then 0 else Pow2(bits) else bits > 0 && |l| == Little(v) < Pow2(bits)
      decreases !done, Pow2(bits) - |l|
    {
      LittleBound(v);
      ReverseValue(v);
      l := l + [Reverse(v)];
      v, done := Increment(v);
      LittleBound(v);
    }
    forall k | 0 <= k < |l| ensures Int2Bin(k, bits) == Some(l[k]) {
      Entry(l[k], k, bits);
    }
  }

  lemma Entry(s: string, k: nat, bits: nat)
    requires bits > 0 && IsEntry(s, k, bits)
    ensures Int2Bin(k, bits) == Some(s)
  {
    Bin2IntBound(s);
    Int2BinCorrect(k, bits);
    Bin2IntInjective(s, Int2Bin(k, bits).value);
  }
}
