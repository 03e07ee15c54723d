/**
  Bytes and 32-bit words of aes.c, and the column maps of sections 5.1.3 and 5.3.3 of FIPS 197.

  A `u32` is its four bytes, most significant first.  The lemmas under "Words are u32s" show that
  the shifts, masks and exclusive-ors that aes.c applies to a `u32` are exactly the operations on
  the four bytes used here.
 */
module AesWord {
  import F = AesField

  datatype Byte = Byte(bits: bv8)

  const ZERO := Byte(0)

  function Xor(a: Byte, b: Byte): Byte {
    Byte(a.bits ^ b.bits)
  }

  function XTime(a: Byte): Byte {
    Byte(F.XTime(a.bits))
  }

  /** S[x] of the comment in aes.c. */
  function SBox(a: Byte): Byte {
    Byte(F.SBox(a.bits))
  }

  /** Si[x] of the comment in aes.c. */
  function InvSBox(a: Byte): Byte {
    Byte(F.InvSBox(a.bits))
  }

  lemma SBoxInverse(a: Byte)
    ensures InvSBox(SBox(a)) == a && SBox(InvSBox(a)) == a
  {
    hide F.SBox, F.InvSBox;
    F.SBoxInverse(a.bits);
  }

  // ---- Exclusive-or ----------------------------------------------------------------------------

  lemma XorCancel(a: Byte, k: Byte)
    ensures Xor(Xor(a, k), k) == a
  {}

  lemma XorUnit(a: Byte)
    ensures Xor(a, ZERO) == a && Xor(ZERO, a) == a
  {}

  lemma XorSwap(a: Byte, b: Byte, c: Byte, d: Byte)
    ensures Xor(Xor(a, b), Xor(c, d)) == Xor(Xor(a, c), Xor(b, d))
  {}

  lemma XTimeXor(a: Byte, b: Byte)
    ensures XTime(Xor(a, b)) == Xor(XTime(a), XTime(b))
  {}

  // ---- Multiplication by the constants of the two matrices --------------------------------------

  function Mul3(a: Byte): Byte {
    Xor(XTime(a), a)
  }

  function Mul4(a: Byte): Byte {
    XTime(XTime(a))
  }

  function Mul8(a: Byte): Byte {
    XTime(Mul4(a))
  }

  function Mul9(a: Byte): Byte {
    Xor(Mul8(a), a)
  }

  function MulB(a: Byte): Byte {
    Xor(Mul8(a), Mul3(a))
  }

  function MulD(a: Byte): Byte {
    Xor(Mul8(a), Xor(Mul4(a), a))
  }

  function MulE(a: Byte): Byte {
    Xor(Mul8(a), Xor(Mul4(a), XTime(a)))
  }

  lemma Mul4Mul8Xor(a: Byte, b: Byte)
    ensures Mul4(Xor(a, b)) == Xor(Mul4(a), Mul4(b))
    ensures Mul8(Xor(a, b)) == Xor(Mul8(a), Mul8(b))
  {
    hide XTime, Xor;
    XTimeXor(a, b);
    XTimeXor(XTime(a), XTime(b));
    XTimeXor(Mul4(a), Mul4(b));
  }

  lemma MultiplesXor(a: Byte, b: Byte)
    ensures Mul3(Xor(a, b)) == Xor(Mul3(a), Mul3(b)) && Mul9(Xor(a, b)) == Xor(Mul9(a), Mul9(b))
    ensures MulB(Xor(a, b)) == Xor(MulB(a), MulB(b)) && MulD(Xor(a, b)) == Xor(MulD(a), MulD(b))
    ensures MulE(Xor(a, b)) == Xor(MulE(a), MulE(b))
  {
    hide XTime, Xor, Mul4, Mul8;
    XTimeXor(a, b);
    Mul4Mul8Xor(a, b);
    XorSwap(XTime(a), XTime(b), a, b);
    XorSwap(Mul8(a), Mul8(b), a, b);
    XorSwap(Mul8(a), Mul8(b), Mul3(a), Mul3(b));
    XorSwap(Mul4(a), Mul4(b), a, b);
    XorSwap(Mul8(a), Mul8(b), Xor(Mul4(a), a), Xor(Mul4(b), b));
    XorSwap(Mul4(a), Mul4(b), XTime(a), XTime(b));
    XorSwap(Mul8(a), Mul8(b), Xor(Mul4(a), XTime(a)), Xor(Mul4(b), XTime(b)));
  }

  // ---- The column maps -------------------------------------------------------------------------

  function Xor4(a: Byte, b: Byte, c: Byte, d: Byte): Byte {
    Xor(Xor(a, b), Xor(c, d))
  }

  /** One row of the matrix of section 5.1.3; the other rows are its rotations. */
  function MixRow(a: Byte, b: Byte, c: Byte, d: Byte): Byte {
    Xor4(XTime(a), Mul3(b), c, d)
  }

  /** One row of the matrix of section 5.3.3. */
  function InvMixRow(a: Byte, b: Byte, c: Byte, d: Byte): Byte {
    Xor4(MulE(a), MulB(b), MulD(c), Mul9(d))
  }

  lemma Xor4Swap(a: Byte, b: Byte, c: Byte, d: Byte, e: Byte, f: Byte, g: Byte, h: Byte)
    ensures Xor4(Xor(a, e), Xor(b, f), Xor(c, g), Xor(d, h)) == Xor(Xor4(a, b, c, d), Xor4(e, f, g, h))
  {
    hide Xor;
    XorSwap(a, e, b, f);
    XorSwap(c, g, d, h);
    XorSwap(Xor(a, b), Xor(e, f), Xor(c, d), Xor(g, h));
  }

  lemma RowXor(a: Byte, b: Byte, c: Byte, d: Byte, e: Byte, f: Byte, g: Byte, h: Byte)
    ensures InvMixRow(Xor(a, e), Xor(b, f), Xor(c, g), Xor(d, h)) ==
            Xor(InvMixRow(a, b, c, d), InvMixRow(e, f, g, h))
  {
    hide Xor, Xor4, Mul9, MulB, MulD, MulE;
    MultiplesXor(a, e);
    MultiplesXor(b, f);
    MultiplesXor(c, g);
    MultiplesXor(d, h);
    Xor4Swap(MulE(a), MulB(b), MulD(c), Mul9(d), MulE(e), MulB(f), MulD(g), Mul9(h));
  }

  lemma MultiplesXor4(a: Byte, b: Byte, c: Byte, d: Byte)
    ensures Mul9(Xor4(a, b, c, d)) == Xor4(Mul9(a), Mul9(b), Mul9(c), Mul9(d))
    ensures MulB(Xor4(a, b, c, d)) == Xor4(MulB(a), MulB(b), MulB(c), MulB(d))
    ensures MulD(Xor4(a, b, c, d)) == Xor4(MulD(a), MulD(b), MulD(c), MulD(d))
    ensures MulE(Xor4(a, b, c, d)) == Xor4(MulE(a), MulE(b), MulE(c), MulE(d))
  {
    hide Xor, Mul9, MulB, MulD, MulE;
    MultiplesXor(a, b);
    MultiplesXor(c, d);
    MultiplesXor(Xor(a, b), Xor(c, d));
  }

  lemma Xor4Rotate(a: Byte, b: Byte, c: Byte, d: Byte)
    ensures Xor4(a, b, c, d) == Xor4(d, a, b, c)
  {}

  lemma Xor4Unit(a: Byte)
    ensures Xor4(a, ZERO, ZERO, ZERO) == a
  {}

  /** A square of bytes summed by rows or by columns. */
  lemma Transpose(e: seq<Byte>, b: seq<Byte>, d: seq<Byte>, n: seq<Byte>)
    requires |e| == |b| == |d| == |n| == 4
    ensures Xor4(Xor4(e[0], e[1], e[2], e[3]), Xor4(b[0], b[1], b[2], b[3]),
                 Xor4(d[0], d[1], d[2], d[3]), Xor4(n[0], n[1], n[2], n[3])) ==
            Xor4(Xor4(e[0], b[0], d[0], n[0]), Xor4(e[1], b[1], d[1], n[1]),
                 Xor4(e[2], b[2], d[2], n[2]), Xor4(e[3], b[3], d[3], n[3]))
  {
    hide Xor;
    Xor4Swap(e[0], e[1], e[2], e[3], b[0], b[1], b[2], b[3]);
    Xor4Swap(d[0], d[1], d[2], d[3], n[0], n[1], n[2], n[3]);
    Xor4Swap(Xor(e[0], b[0]), Xor(e[1], b[1]), Xor(e[2], b[2]), Xor(e[3], b[3]),
             Xor(d[0], n[0]), Xor(d[1], n[1]), Xor(d[2], n[2]), Xor(d[3], n[3]));
  }

  lemma MultiplesBits(a: Byte)
    ensures Mul3(a) == Byte(F.Mul3(a.bits)) && Mul9(a) == Byte(F.Mul9(a.bits))
    ensures MulB(a) == Byte(F.MulB(a.bits)) && MulD(a) == Byte(F.MulD(a.bits))
    ensures MulE(a) == Byte(F.MulE(a.bits))
  {}

  lemma Xor4Bits(p: bv8, q: bv8, r: bv8, s: bv8)
    ensures Xor4(Byte(p), Byte(q), Byte(r), Byte(s)) == Byte((p ^ q) ^ (r ^ s))
  {}

  lemma MatrixProductBits(x: bv8)
    ensures Xor4(Byte(F.MulE(F.XTime(x))), Byte(F.MulB(x)), Byte(F.MulD(x)), Byte(F.Mul9(F.Mul3(x)))) == Byte(x)
    ensures Xor4(Byte(F.MulE(F.Mul3(x))), Byte(F.MulB(F.XTime(x))), Byte(F.MulD(x)), Byte(F.Mul9(x))) == ZERO
    ensures Xor4(Byte(F.MulE(x)), Byte(F.MulB(F.Mul3(x))), Byte(F.MulD(F.XTime(x))), Byte(F.Mul9(x))) == ZERO
    ensures Xor4(Byte(F.MulE(x)), Byte(F.MulB(x)), Byte(F.MulD(F.Mul3(x))), Byte(F.Mul9(F.XTime(x)))) == ZERO
  {
    hide Xor4, F.XTime, F.Mul3, F.Mul9, F.MulB, F.MulD, F.MulE;
    F.MatrixProduct(x);
    Xor4Bits(F.MulE(F.XTime(x)), F.MulB(x), F.MulD(x), F.Mul9(F.Mul3(x)));
    Xor4Bits(F.MulE(F.Mul3(x)), F.MulB(F.XTime(x)), F.MulD(x), F.Mul9(x));
    Xor4Bits(F.MulE(x), F.MulB(F.Mul3(x)), F.MulD(F.XTime(x)), F.Mul9(x));
    Xor4Bits(F.MulE(x), F.MulB(x), F.MulD(F.Mul3(x)), F.Mul9(F.XTime(x)));
  }

  /** The columns of the product of the two matrices, applied to one byte. */
  lemma MatrixProduct(a: Byte)
    ensures Xor4(MulE(XTime(a)), MulB(a), MulD(a), Mul9(Mul3(a))) == a
    ensures Xor4(MulE(Mul3(a)), MulB(XTime(a)), MulD(a), Mul9(a)) == ZERO
    ensures Xor4(MulE(a), MulB(Mul3(a)), MulD(XTime(a)), Mul9(a)) == ZERO
    ensures Xor4(MulE(a), MulB(a), MulD(Mul3(a)), Mul9(XTime(a))) == ZERO
  {
    hide Xor4, Mul3, Mul9, MulB, MulD, MulE, F.XTime, F.Mul3, F.Mul9, F.MulB, F.MulD, F.MulE;
    MultiplesBits(a);
    MultiplesBits(XTime(a));
    MultiplesBits(Mul3(a));
    MatrixProductBits(a.bits);
  }

  lemma RowInverse(a: Byte, b: Byte, c: Byte, d: Byte)
    ensures InvMixRow(MixRow(a, b, c, d), MixRow(b, c, d, a), MixRow(c, d, a, b), MixRow(d, a, b, c)) == a
  {
    hide Xor, Xor4, XTime, Mul3, Mul9, MulB, MulD, MulE;
    MultiplesXor4(XTime(a), Mul3(b), c, d);
    MultiplesXor4(XTime(b), Mul3(c), d, a);
    MultiplesXor4(XTime(c), Mul3(d), a, b);
    MultiplesXor4(XTime(d), Mul3(a), b, c);
    Xor4Rotate(MulB(XTime(b)), MulB(Mul3(c)), MulB(d), MulB(a));
    Xor4Rotate(MulD(XTime(c)), MulD(Mul3(d)), MulD(a), MulD(b));
    Xor4Rotate(MulD(b), MulD(XTime(c)), MulD(Mul3(d)), MulD(a));
    Xor4Rotate(Mul9(Mul3(a)), Mul9(b), Mul9(c), Mul9(XTime(d)));
    Transpose([MulE(XTime(a)), MulE(Mul3(b)), MulE(c), MulE(d)],
              [MulB(a), MulB(XTime(b)), MulB(Mul3(c)), MulB(d)],
              [MulD(a), MulD(b), MulD(XTime(c)), MulD(Mul3(d))],
              [Mul9(Mul3(a)), Mul9(b), Mul9(c), Mul9(XTime(d))]);
    MatrixProduct(a);
    MatrixProduct(b);
    MatrixProduct(c);
    MatrixProduct(d);
    Xor4Unit(a);
  }

  // ---- Words -----------------------------------------------------------------------------------

  datatype Word = Word(b3: Byte, b2: Byte, b1: Byte, b0: Byte)

  function XorWord(v: Word, w: Word): Word {
    Word(Xor(v.b3, w.b3), Xor(v.b2, w.b2), Xor(v.b1, w.b1), Xor(v.b0, w.b0))
  }

  lemma XorWordCancel(w: Word, k: Word)
    ensures XorWord(XorWord(w, k), k) == w
  {
    hide Xor;
    XorCancel(w.b3, k.b3);
    XorCancel(w.b2, k.b2);
    XorCancel(w.b1, k.b1);
    XorCancel(w.b0, k.b0);
  }

  function SubWord(w: Word): Word {
    Word(SBox(w.b3), SBox(w.b2), SBox(w.b1), SBox(w.b0))
  }

  function InvSubWord(w: Word): Word {
    Word(InvSBox(w.b3), InvSBox(w.b2), InvSBox(w.b1), InvSBox(w.b0))
  }

  lemma SubWordInverse(w: Word)
    ensures InvSubWord(SubWord(w)) == w
  {
    hide SBox, InvSBox;
    SBoxInverse(w.b3);
    SBoxInverse(w.b2);
    SBoxInverse(w.b1);
    SBoxInverse(w.b0);
  }

  function MixColumn(w: Word): Word {
    Word(MixRow(w.b3, w.b2, w.b1, w.b0), MixRow(w.b2, w.b1, w.b0, w.b3),
         MixRow(w.b1, w.b0, w.b3, w.b2), MixRow(w.b0, w.b3, w.b2, w.b1))
  }

  function InvMixColumn(w: Word): Word {
    Word(InvMixRow(w.b3, w.b2, w.b1, w.b0), InvMixRow(w.b2, w.b1, w.b0, w.b3),
         InvMixRow(w.b1, w.b0, w.b3, w.b2), InvMixRow(w.b0, w.b3, w.b2, w.b1))
  }

  /** InvMixColumns undoes MixColumns on every column. */
  lemma MixColumnInverse(w: Word)
    ensures InvMixColumn(MixColumn(w)) == w
  {
    hide MixRow, InvMixRow;
    RowInverse(w.b3, w.b2, w.b1, w.b0);
    RowInverse(w.b2, w.b1, w.b0, w.b3);
    RowInverse(w.b1, w.b0, w.b3, w.b2);
    RowInverse(w.b0, w.b3, w.b2, w.b1);
  }

  /** InvMixColumns is linear, which is what lets the round keys be transformed in advance. */
  lemma InvMixColumnXor(v: Word, w: Word)
    ensures InvMixColumn(XorWord(v, w)) == XorWord(InvMixColumn(v), InvMixColumn(w))
  {
    hide Xor, InvMixRow;
    RowXor(v.b3, v.b2, v.b1, v.b0, w.b3, w.b2, w.b1, w.b0);
    RowXor(v.b2, v.b1, v.b0, v.b3, w.b2, w.b1, w.b0, w.b3);
    RowXor(v.b1, v.b0, v.b3, v.b2, w.b1, w.b0, w.b3, w.b2);
    RowXor(v.b0, v.b3, v.b2, v.b1, w.b0, w.b3, w.b2, w.b1);
  }

  // ---- Words are u32s ----------------------------------------------------------------------------

  /** GETU32 of four bytes. */
  function ToU32(w: Word): bv32 {
    ((w.b3.bits as bv32) << 24) ^ ((w.b2.bits as bv32) << 16) ^ ((w.b1.bits as bv32) << 8) ^
    (w.b0.bits as bv32)
  }

  /** The four bytes that PUTU32 stores. */
  function FromU32(u: bv32): Word {
    Word(Byte(((u >> 24) & 0xff) as bv8), Byte(((u >> 16) & 0xff) as bv8),
         Byte(((u >> 8) & 0xff) as bv8), Byte((u & 0xff) as bv8))
  }

  lemma ToFromU32(u: bv32)
    ensures ToU32(FromU32(u)) == u
  {}

  /** Exclusive-or acts on the four bytes separately. */
  lemma XorIsU32Xor(u: bv32, v: bv32)
    ensures FromU32(u ^ v) == XorWord(FromU32(u), FromU32(v))
  {}

  /** The masks of the last round keep one byte and clear the others. */
  lemma MasksAreBytes(u: bv32)
    ensures FromU32(u & 0xff00_0000) == Word(FromU32(u).b3, ZERO, ZERO, ZERO)
    ensures FromU32(u & 0x00ff_0000) == Word(ZERO, FromU32(u).b2, ZERO, ZERO)
    ensures FromU32(u & 0x0000_ff00) == Word(ZERO, ZERO, FromU32(u).b1, ZERO)
    ensures FromU32(u & 0x0000_00ff) == Word(ZERO, ZERO, ZERO, FromU32(u).b0)
  {}

  lemma FromToU32(w: Word)
    ensures FromU32(ToU32(w)) == w
  {}
}
