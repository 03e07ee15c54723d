/**
  The finite field GF(2^8) of section 4 of FIPS 197 and the byte substitution built on it
  (section 5.1.1), bit by bit.

  Every definition is branch-free: a bit is tested by multiplying with it.
 */
module AesField {

  /** Multiplication by x modulo x^8 + x^4 + x^3 + x + 1. */
  function XTime(a: bv8): bv8 {
    (a << 1) ^ ((a >> 7) * 0x1b)
  }

  function GfMul(a: bv8, b: bv8): bv8 {
    var a1 := XTime(a);
    var a2 := XTime(a1);
    var a3 := XTime(a2);
    var a4 := XTime(a3);
    var a5 := XTime(a4);
    var a6 := XTime(a5);
    var a7 := XTime(a6);
    (a * (b & 1)) ^ (a1 * ((b >> 1) & 1)) ^ (a2 * ((b >> 2) & 1)) ^ (a3 * ((b >> 3) & 1)) ^
    (a4 * ((b >> 4) & 1)) ^ (a5 * ((b >> 5) & 1)) ^ (a6 * ((b >> 6) & 1)) ^ (a7 * ((b >> 7) & 1))
  }

  /** The power a^254, which is the inverse of a when a is not 0, and 0 when it is. */
  function GfInv(a: bv8): bv8 {
    var a2 := GfMul(a, a);
    var a3 := GfMul(a2, a);
    var a6 := GfMul(a3, a3);
    var a12 := GfMul(a6, a6);
    var a15 := GfMul(a12, a3);
    var a30 := GfMul(a15, a15);
    var a60 := GfMul(a30, a30);
    var a120 := GfMul(a60, a60);
    var a240 := GfMul(a120, a120);
    var a252 := GfMul(a240, a12);
    GfMul(a252, a2)
  }

  /** S[x] of the comment in aes.c: inversion followed by the affine map. */
  function SBox(a: bv8): bv8 {
    Affine(GfInv(a))
  }

  /** Si[x] of the comment in aes.c. */
  function InvSBox(a: bv8): bv8 {
    GfInv(InvAffine(a))
  }

  function Affine(b: bv8): bv8 {
    b ^ b.RotateLeft(1) ^ b.RotateLeft(2) ^ b.RotateLeft(3) ^ b.RotateLeft(4) ^ 0x63
  }

  function InvAffine(b: bv8): bv8 {
    b.RotateLeft(1) ^ b.RotateLeft(3) ^ b.RotateLeft(6) ^ 0x05
  }

  // ---- Equation (5.1) --------------------------------------------------------------------------------

  /** Bit i of b, counted round the byte. */
  function Bit(b: bv8, i: bv8): bv8 {
    (b >> (i & 7)) & 1
  }

  /** Equation (5.1) of FIPS 197 for every bit of S[a]: the inverse's bits combined with the bits of 63. */
  lemma SBoxBits(a: bv8, i: bv8)
    ensures var b := GfInv(a);
            Bit(SBox(a), i) ==
            Bit(b, i) ^ Bit(b, i + 4) ^ Bit(b, i + 5) ^ Bit(b, i + 6) ^ Bit(b, i + 7) ^ Bit(0x63, i)
  {
    hide GfInv;
    AffineBits(GfInv(a), i);
  }

  lemma AffineBits(b: bv8, i: bv8)
    ensures Bit(Affine(b), i) ==
            Bit(b, i) ^ Bit(b, i + 4) ^ Bit(b, i + 5) ^ Bit(b, i + 6) ^ Bit(b, i + 7) ^ Bit(0x63, i)
  {}

  // ---- The substitution is a permutation of the bytes -----------------------------------------

  lemma AffineInverse(b: bv8)
    ensures InvAffine(Affine(b)) == b && Affine(InvAffine(b)) == b
  {}

  // Both facts about inversion are decided bit by bit; the split on the leading bits only keeps
  // each decision small.

  lemma GfInvTwice00(a: bv8)
    requires a >> 6 == 0
    ensures GfInv(GfInv(a)) == a
  {}

  lemma GfInvTwice01(a: bv8)
    requires a >> 6 == 1
    ensures GfInv(GfInv(a)) == a
  {}

  lemma GfInvTwice10(a: bv8)
    requires a >> 6 == 2
    ensures GfInv(GfInv(a)) == a
  {}

  lemma GfInvTwice11(a: bv8)
    requires a >> 6 == 3
    ensures GfInv(GfInv(a)) == a
  {}

  lemma GfInvTwice(a: bv8)
    ensures GfInv(GfInv(a)) == a
  {
    hide GfInv;
    if a >> 6 == 0 {
      GfInvTwice00(a);
    } else if a >> 6 == 1 {
      GfInvTwice01(a);
    } else if a >> 6 == 2 {
      GfInvTwice10(a);
    } else {
      GfInvTwice11(a);
    }
  }

  lemma GfInvLowHalf(a: bv8)
    requires a != 0 && a >> 7 == 0
    ensures GfMul(GfInv(a), a) == 1
  {}

  lemma GfInvHighHalf(a: bv8)
    requires a >> 7 == 1
    ensures GfMul(GfInv(a), a) == 1
  {}

  /** GfInv is the multiplicative inverse that section 5.1.1 of FIPS 197 asks for. */
  lemma GfInvIsInverse(a: bv8)
    ensures a != 0 ==> GfMul(GfInv(a), a) == 1
    ensures GfInv(0) == 0
  {
    assert GfInv(0) == 0;
    hide GfInv, GfMul;
    if a != 0 && a >> 7 == 0 {
      GfInvLowHalf(a);
    } else if a >> 7 == 1 {
      GfInvHighHalf(a);
    }
  }

  /** S and Si undo each other on every byte. */
  lemma SBoxInverse(a: bv8)
    ensures InvSBox(SBox(a)) == a && SBox(InvSBox(a)) == a
  {
    hide GfInv, Affine, InvAffine;
    AffineInverse(GfInv(a));
    GfInvTwice(a);
    AffineInverse(a);
    GfInvTwice(InvAffine(a));
  }

  // ---- Multiplication by the constants of the two column matrices ------------------------------

  function Mul3(a: bv8): bv8 { XTime(a) ^ a }

  function Mul4(a: bv8): bv8 { XTime(XTime(a)) }

  function Mul8(a: bv8): bv8 { XTime(Mul4(a)) }

  function Mul9(a: bv8): bv8 { Mul8(a) ^ a }

  function MulB(a: bv8): bv8 { Mul8(a) ^ Mul3(a) }

  function MulD(a: bv8): bv8 { Mul8(a) ^ (Mul4(a) ^ a) }

  function MulE(a: bv8): bv8 { Mul8(a) ^ (Mul4(a) ^ XTime(a)) }

  lemma ConstantMultiples(a: bv8)
    ensures XTime(a) == GfMul(a, 2) && Mul3(a) == GfMul(a, 3) && Mul9(a) == GfMul(a, 9)
    ensures MulB(a) == GfMul(a, 0x0b) && MulD(a) == GfMul(a, 0x0d) && MulE(a) == GfMul(a, 0x0e)
  {}

  /** One column of the product of the matrices of sections 5.3.3 and 5.1.3, applied to one byte. */
  lemma MatrixProduct(a: bv8)
    ensures (MulE(XTime(a)) ^ MulB(a)) ^ (MulD(a) ^ Mul9(Mul3(a))) == a
    ensures (MulE(Mul3(a)) ^ MulB(XTime(a))) ^ (MulD(a) ^ Mul9(a)) == 0
    ensures (MulE(a) ^ MulB(Mul3(a))) ^ (MulD(XTime(a)) ^ Mul9(a)) == 0
    ensures (MulE(a) ^ MulB(a)) ^ (MulD(Mul3(a)) ^ Mul9(XTime(a))) == 0
  {}
}
