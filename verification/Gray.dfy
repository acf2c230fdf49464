/** Gray code (`gray_encode`, bindings/python/rad_util.py): i xor (i >> 1) on unbounded naturals.

    Parities undo it; it keeps the number of bits and takes neighbours to neighbours. */
module Gray {
  import opened BinaryStrings

  // Bitwise exclusive or.
  function Xor(a: nat, b: nat): nat {
    if a == 0 && b == 0 then 0 else 2 * Xor(a / 2, b / 2) + XorBit(a % 2, b % 2)
  }

  function XorBit(a: nat, b: nat): nat {
    if a == b then 0 else 1
  }

  function Encode(i: nat): nat {
    Xor(i, i / 2)
  }

  // The k-th bit from below.
  function Bit(n: nat, k: nat): nat {
    if k == 0 then n % 2 else Bit(n / 2, k - 1)
  }

  // Number of one bits.
  function Ones(n: nat): nat {
    if n == 0 then 0 else Ones(n / 2) + n % 2
  }

  // Number of bit positions in which a and b differ.
  function Distance(a: nat, b: nat): nat {
    Ones(Xor(a, b))
  }

  // Each bit is the parity of the bits of g from there upwards.
  function Decode(g: nat): nat {
    if g == 0 then 0 else 2 * Decode(g / 2) + XorBit(g % 2, Decode(g / 2) % 2)
  }

  // ----- One bit at a time

  lemma XorBits(a: nat, x: nat, b: nat, y: nat)
    requires x < 2 && y < 2
    ensures Xor(2 * a + x, 2 * b + y) == 2 * Xor(a, b) + XorBit(x, y)
  {
    assert (2 * a + x) / 2 == a && (2 * a + x) % 2 == x;
    assert (2 * b + y) / 2 == b && (2 * b + y) % 2 == y;
  }

  lemma OnesBits(n: nat, x: nat)
    requires x < 2
    ensures Ones(2 * n + x) == Ones(n) + x
  {
    assert (2 * n + x) / 2 == n && (2 * n + x) % 2 == x;
  }

  lemma EncodeBits(h: nat, x: nat)
    requires x < 2
    ensures Encode(2 * h + x) == 2 * Encode(h) + XorBit(x, h % 2)
  {
    assert (2 * h + x) / 2 == h && h == 2 * (h / 2) + h % 2;
    XorBits(h, x, h / 2, h % 2);
  }

  // A bit of the code is set if and only if the bit and the next one differ.
  lemma {:induction false} CodeBit(i: nat, k: nat)
    ensures Bit(Encode(i), k) == if Bit(i, k) != Bit(i, k + 1) then 1 else 0
    decreases k
  {
    var h, x := i / 2, i % 2;
    EncodeBits(h, x);
    assert i == 2 * h + x;
    var code, low := Encode(h), XorBit(x, h % 2);
    assert (2 * code + low) / 2 == code && (2 * code + low) % 2 == low;
    if k > 0 {
      CodeBit(h, k - 1);
    }
  }

  lemma DecodeBits(g: nat, x: nat)
    requires x < 2
    ensures Decode(2 * g + x) == 2 * Decode(g) + XorBit(x, Decode(g) % 2)
  {
    assert (2 * g + x) / 2 == g && (2 * g + x) % 2 == x;
  }

  lemma Halves(i: nat) returns (h: nat, x: nat)
    ensures i == 2 * h + x && x < 2 && (i > 0 ==> h < i)
    ensures h == i / 2 && x == i % 2
  {
    h, x := i / 2, i % 2;
  }

  lemma {:induction false} XorSelf(a: nat)
    ensures Xor(a, a) == 0
  {
    if a > 0 {
      XorSelf(a / 2);
    }
  }

  // ----- A bijection

  // Decoding undoes encoding, so no two numbers share a code ...
  lemma {:induction false} DecodeEncode(i: nat)
    ensures Decode(Encode(i)) == i
  {
    if i > 0 {
      var h, x := Halves(i);
      DecodeEncode(h);
      EncodeBits(h, x);
      DecodeBits(Encode(h), XorBit(x, h % 2));
    }
  }

  // ... and encoding undoes decoding, so every number is a code.
  lemma {:induction false} EncodeDecode(g: nat)
    ensures Encode(Decode(g)) == g
  {
    if g > 0 {
      var h, x := Halves(g);
      EncodeDecode(h);
      DecodeBits(h, x);
      EncodeBits(Decode(h), XorBit(x, Decode(h) % 2));
    }
  }

  // Codes need exactly as many bits as the numbers they stand for.
  lemma {:induction false} EncodeKeepsWidth(i: nat, n: nat)
    ensures Encode(i) < Pow2(n) <==> i < Pow2(n)
    decreases n
  {
    if n == 0 {
      OnlyZeroIsZero(i);
    } else {
      var h, x := Halves(i);
      EncodeBits(h, x);
      EncodeKeepsWidth(h, n - 1);
      HalfBound(h, x, Pow2(n - 1));
      HalfBound(Encode(h), XorBit(x, h % 2), Pow2(n - 1));
    }
  }

  lemma OnlyZeroIsZero(i: nat)
    ensures Encode(i) == 0 <==> i == 0
  {
    DecodeEncode(i);
  }

  lemma HalfBound(a: nat, x: nat, p: nat)
    requires x < 2
    ensures 2 * a + x < 2 * p <==> a < p
  {
  }

  // On n bits the code is a bijection.
  lemma BijectionOnBits(n: nat)
    ensures forall i: nat :: Encode(i) < Pow2(n) <==> i < Pow2(n)
    ensures forall i: nat, j: nat :: Encode(i) == Encode(j) ==> i == j
    ensures forall g: nat {:trigger Decode(g)} :: g < Pow2(n) ==> Decode(g) < Pow2(n) && Encode(Decode(g)) == g
  {
    forall i: nat ensures Encode(i) < Pow2(n) <==> i < Pow2(n) {
      EncodeKeepsWidth(i, n);
    }
    forall i: nat, j: nat | Encode(i) == Encode(j) ensures i == j {
      DecodeEncode(i);
      DecodeEncode(j);
    }
    forall g: nat ensures g < Pow2(n) ==> Decode(g) < Pow2(n) && Encode(Decode(g)) == g {
      EncodeDecode(g);
      EncodeKeepsWidth(Decode(g), n);
    }
  }

  // ----- Neighbours

  // Codes of neighbours differ in exactly one bit.
  lemma {:induction false} NeighboursDifferInOneBit(i: nat)
    ensures Distance(Encode(i), Encode(i + 1)) == 1
  {
    var h, x := Halves(i);
    if x == 0 {
      PairedNeighbours(h);
    } else {
      NeighboursDifferInOneBit(h);
      CarriedNeighbours(h);
    }
  }

  lemma PairedNeighbours(h: nat)
    ensures Distance(Encode(2 * h), Encode(2 * h + 1)) == 1
  {
    EncodeBits(h, 0);
    EncodeBits(h, 1);
    LowBitDiffers(Encode(h), XorBit(0, h % 2), XorBit(1, h % 2));
  }

  // 2h + 1 and 2h + 2 have codes with the same last bit.
  lemma CarriedNeighbours(h: nat)
    ensures Distance(Encode(2 * h + 1), Encode(2 * h + 2)) == Distance(Encode(h), Encode(h + 1))
  {
    var x := XorBit(1, h % 2);
    OddCode(h, x);
    EvenCode(h, x);
    SameLastBit(Encode(2 * h + 1), Encode(2 * h + 2), Encode(h), Encode(h + 1), x);
  }

  lemma SameLastBit(p: nat, q: nat, a: nat, b: nat, x: nat)
    requires x < 2 && p == 2 * a + x && q == 2 * b + x
    ensures Distance(p, q) == Distance(a, b)
  {
    HighBitsDiffer(a, b, x);
  }

  lemma OddCode(h: nat, x: nat)
    requires x == XorBit(1, h % 2)
    ensures Encode(2 * h + 1) == 2 * Encode(h) + x
  {
    EncodeBits(h, 1);
  }

  lemma EvenCode(h: nat, x: nat)
    requires x == XorBit(1, h % 2)
    ensures Encode(2 * h + 2) == 2 * Encode(h + 1) + x
  {
    EncodeBits(h + 1, 0);
    Carry(h);
  }

  lemma LowBitDiffers(a: nat, x: nat, y: nat)
    requires x < 2 && y < 2 && x != y
    ensures Distance(2 * a + x, 2 * a + y) == 1
  {
    XorBits(a, x, a, y);
    XorSelf(a);
    OnesBits(0, 1);
  }

  lemma HighBitsDiffer(a: nat, b: nat, x: nat)
    requires x < 2
    ensures Distance(2 * a + x, 2 * b + x) == Distance(a, b)
  {
    XorBits(a, x, b, x);
    OnesBits(Xor(a, b), 0);
  }

  lemma Carry(h: nat)
    ensures XorBit(1, h % 2) == XorBit(0, (h + 1) % 2)
  {
  }
}
