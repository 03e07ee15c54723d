/**
  The lookup tables of aes.c, the rounds made of them, and AES_encrypt and AES_decrypt of one block
  under an AES_KEY.
 */
module Aes {
  import opened AesWord
  import opened AesCipher

  const AES_MAXNR := 14

  // ---- Lookup tables, by the formulas in the comment at the head of aes.c --------------------------

  function Te0(x: Byte): Word { var s := SBox(x); Word(XTime(s), s, s, Mul3(s)) }

  function Te1(x: Byte): Word { var s := SBox(x); Word(Mul3(s), XTime(s), s, s) }

  function Te2(x: Byte): Word { var s := SBox(x); Word(s, Mul3(s), XTime(s), s) }

  function Te3(x: Byte): Word { var s := SBox(x); Word(s, s, Mul3(s), XTime(s)) }

  function Te4(x: Byte): Word { var s := SBox(x); Word(s, s, s, s) }

  function Td0(x: Byte): Word { var s := InvSBox(x); Word(MulE(s), Mul9(s), MulD(s), MulB(s)) }

  function Td1(x: Byte): Word { var s := InvSBox(x); Word(MulB(s), MulE(s), Mul9(s), MulD(s)) }

  function Td2(x: Byte): Word { var s := InvSBox(x); Word(MulD(s), MulB(s), MulE(s), Mul9(s)) }

  function Td3(x: Byte): Word { var s := InvSBox(x); Word(Mul9(s), MulD(s), MulB(s), MulE(s)) }

  function Td4(x: Byte): Word { var s := InvSBox(x); Word(s, s, s, s) }

  lemma SubstitutionAtZero()
    ensures SBox(ZERO) == Byte(0x63) && InvSBox(ZERO) == Byte(0x52)
  {}

  /** The first entry of each of the ten tables as aes.c writes it. */
  lemma TablesAtZero()
    ensures Te0(ZERO) == FromU32(0xc66363a5) && Te1(ZERO) == FromU32(0xa5c66363)
    ensures Te2(ZERO) == FromU32(0x63a5c663) && Te3(ZERO) == FromU32(0x6363a5c6)
    ensures Te4(ZERO) == FromU32(0x63636363) && Td4(ZERO) == FromU32(0x52525252)
    ensures Td0(ZERO) == FromU32(0x51f4a750) && Td1(ZERO) == FromU32(0x5051f4a7)
    ensures Td2(ZERO) == FromU32(0xa75051f4) && Td3(ZERO) == FromU32(0xf4a75051)
  {
    hide SBox, InvSBox;
    SubstitutionAtZero();
  }

  // The masks 0xff000000, 0x00ff0000, 0x0000ff00 and 0x000000ff.

  function Keep3(w: Word): Word { Word(w.b3, ZERO, ZERO, ZERO) }

  function Keep2(w: Word): Word { Word(ZERO, w.b2, ZERO, ZERO) }

  function Keep1(w: Word): Word { Word(ZERO, ZERO, w.b1, ZERO) }

  function Keep0(w: Word): Word { Word(ZERO, ZERO, ZERO, w.b0) }

  /** The exclusive-or of five words, in the order aes.c writes it. */
  function Xor5(a: Word, b: Word, c: Word, d: Word, k: Word): Word {
    XorWord(XorWord(XorWord(XorWord(a, b), c), d), k)
  }

  lemma ChainIsXor4(a: Byte, b: Byte, c: Byte, d: Byte)
    ensures Xor(Xor(Xor(a, b), c), d) == Xor4(a, b, c, d)
  {}

  lemma Rotations(a: Byte, b: Byte, c: Byte, d: Byte)
    ensures Xor(Xor(Xor(a, b), c), d) == Xor4(a, b, c, d) == Xor4(b, c, d, a)
    ensures Xor4(a, b, c, d) == Xor4(c, d, a, b) == Xor4(d, a, b, c)
  {
    hide Xor, Xor4;
    ChainIsXor4(a, b, c, d);
    Xor4Rotate(a, b, c, d);
    Xor4Rotate(d, a, b, c);
    Xor4Rotate(c, d, a, b);
  }

  /** Four table lookups make one column of MixColumns(ShiftRows(SubBytes(.))). */
  lemma TablesMix(a: Byte, b: Byte, c: Byte, d: Byte, k: Word)
    ensures Xor5(Te0(a), Te1(b), Te2(c), Te3(d), k) ==
            XorWord(MixColumn(Word(SBox(a), SBox(b), SBox(c), SBox(d))), k)
  {
    hide Xor, Xor4, SBox, XTime, Mul3;
    var p, q, r, s := SBox(a), SBox(b), SBox(c), SBox(d);
    Rotations(XTime(p), Mul3(q), r, s);
    Rotations(p, XTime(q), Mul3(r), s);
    Rotations(p, q, XTime(r), Mul3(s));
    Rotations(Mul3(p), q, r, XTime(s));
  }

  lemma TablesInvMix(a: Byte, b: Byte, c: Byte, d: Byte, k: Word)
    ensures Xor5(Td0(a), Td1(b), Td2(c), Td3(d), k) ==
            XorWord(InvMixColumn(Word(InvSBox(a), InvSBox(b), InvSBox(c), InvSBox(d))), k)
  {
    hide Xor, Xor4, InvSBox, Mul9, MulB, MulD, MulE;
    var p, q, r, s := InvSBox(a), InvSBox(b), InvSBox(c), InvSBox(d);
    Rotations(MulE(p), MulB(q), MulD(r), Mul9(s));
    Rotations(Mul9(p), MulE(q), MulB(r), MulD(s));
    Rotations(MulD(p), Mul9(q), MulE(r), MulB(s));
    Rotations(MulB(p), MulD(q), Mul9(r), MulE(s));
  }

  lemma MaskedSum(a: Word, b: Word, c: Word, d: Word, k: Word)
    ensures Xor5(Keep3(a), Keep2(b), Keep1(c), Keep0(d), k) == XorWord(Word(a.b3, b.b2, c.b1, d.b0), k)
  {
    hide Xor;
    XorUnit(a.b3);
    XorUnit(b.b2);
    XorUnit(c.b1);
    XorUnit(d.b0);
    XorUnit(ZERO);
  }

  // ---- One round, as written in aes.c --------------------------------------------------------------

  function EncRound(s: Block, k: Block): Block {
    Block(Xor5(Te0(s.c0.b3), Te1(s.c1.b2), Te2(s.c2.b1), Te3(s.c3.b0), k.c0),
          Xor5(Te0(s.c1.b3), Te1(s.c2.b2), Te2(s.c3.b1), Te3(s.c0.b0), k.c1),
          Xor5(Te0(s.c2.b3), Te1(s.c3.b2), Te2(s.c0.b1), Te3(s.c1.b0), k.c2),
          Xor5(Te0(s.c3.b3), Te1(s.c0.b2), Te2(s.c1.b1), Te3(s.c2.b0), k.c3))
  }

  function EncLast(t: Block, k: Block): Block {
    Block(Xor5(Keep3(Te4(t.c0.b3)), Keep2(Te4(t.c1.b2)), Keep1(Te4(t.c2.b1)), Keep0(Te4(t.c3.b0)), k.c0),
          Xor5(Keep3(Te4(t.c1.b3)), Keep2(Te4(t.c2.b2)), Keep1(Te4(t.c3.b1)), Keep0(Te4(t.c0.b0)), k.c1),
          Xor5(Keep3(Te4(t.c2.b3)), Keep2(Te4(t.c3.b2)), Keep1(Te4(t.c0.b1)), Keep0(Te4(t.c1.b0)), k.c2),
          Xor5(Keep3(Te4(t.c3.b3)), Keep2(Te4(t.c0.b2)), Keep1(Te4(t.c1.b1)), Keep0(Te4(t.c2.b0)), k.c3))
  }

  function DecRound(s: Block, k: Block): Block {
    Block(Xor5(Td0(s.c0.b3), Td1(s.c3.b2), Td2(s.c2.b1), Td3(s.c1.b0), k.c0),
          Xor5(Td0(s.c1.b3), Td1(s.c0.b2), Td2(s.c3.b1), Td3(s.c2.b0), k.c1),
          Xor5(Td0(s.c2.b3), Td1(s.c1.b2), Td2(s.c0.b1), Td3(s.c3.b0), k.c2),
          Xor5(Td0(s.c3.b3), Td1(s.c2.b2), Td2(s.c1.b1), Td3(s.c0.b0), k.c3))
  }

  function DecLast(t: Block, k: Block): Block {
    Block(Xor5(Keep3(Td4(t.c0.b3)), Keep2(Td4(t.c3.b2)), Keep1(Td4(t.c2.b1)), Keep0(Td4(t.c1.b0)), k.c0),
          Xor5(Keep3(Td4(t.c1.b3)), Keep2(Td4(t.c0.b2)), Keep1(Td4(t.c3.b1)), Keep0(Td4(t.c2.b0)), k.c1),
          Xor5(Keep3(Td4(t.c2.b3)), Keep2(Td4(t.c1.b2)), Keep1(Td4(t.c0.b1)), Keep0(Td4(t.c3.b0)), k.c2),
          Xor5(Keep3(Td4(t.c3.b3)), Keep2(Td4(t.c2.b2)), Keep1(Td4(t.c1.b1)), Keep0(Td4(t.c0.b0)), k.c3))
  }

  /** The table-driven rounds are the rounds of FIPS 197. */
  lemma EncRoundIsRound(s: Block, k: Block)
    ensures EncRound(s, k) == Round(s, k)
  {
    hide SBox, MixColumn, XorWord, Te0, Te1, Te2, Te3, Xor5;
    TablesMix(s.c0.b3, s.c1.b2, s.c2.b1, s.c3.b0, k.c0);
    TablesMix(s.c1.b3, s.c2.b2, s.c3.b1, s.c0.b0, k.c1);
    TablesMix(s.c2.b3, s.c3.b2, s.c0.b1, s.c1.b0, k.c2);
    TablesMix(s.c3.b3, s.c0.b2, s.c1.b1, s.c2.b0, k.c3);
  }

  lemma DecRoundIsEqRound(s: Block, k: Block)
    ensures DecRound(s, k) == EqRound(s, k)
  {
    hide InvSBox, InvMixColumn, XorWord, Td0, Td1, Td2, Td3, Xor5;
    TablesInvMix(s.c0.b3, s.c3.b2, s.c2.b1, s.c1.b0, k.c0);
    TablesInvMix(s.c1.b3, s.c0.b2, s.c3.b1, s.c2.b0, k.c1);
    TablesInvMix(s.c2.b3, s.c1.b2, s.c0.b1, s.c3.b0, k.c2);
    TablesInvMix(s.c3.b3, s.c2.b2, s.c1.b1, s.c0.b0, k.c3);
  }

  lemma EncLastIsFinalRound(t: Block, k: Block)
    ensures EncLast(t, k) == FinalRound(t, k)
  {
    hide SBox, XorWord, Xor5, Keep3, Keep2, Keep1, Keep0;
    MaskedSum(Te4(t.c0.b3), Te4(t.c1.b2), Te4(t.c2.b1), Te4(t.c3.b0), k.c0);
    MaskedSum(Te4(t.c1.b3), Te4(t.c2.b2), Te4(t.c3.b1), Te4(t.c0.b0), k.c1);
    MaskedSum(Te4(t.c2.b3), Te4(t.c3.b2), Te4(t.c0.b1), Te4(t.c1.b0), k.c2);
    MaskedSum(Te4(t.c3.b3), Te4(t.c0.b2), Te4(t.c1.b1), Te4(t.c2.b0), k.c3);
  }

  lemma DecLastIsEqFinalRound(t: Block, k: Block)
    ensures DecLast(t, k) == EqFinalRound(t, k)
  {
    hide InvSBox, XorWord, Xor5, Keep3, Keep2, Keep1, Keep0;
    MaskedSum(Td4(t.c0.b3), Td4(t.c3.b2), Td4(t.c2.b1), Td4(t.c1.b0), k.c0);
    MaskedSum(Td4(t.c1.b3), Td4(t.c0.b2), Td4(t.c3.b1), Td4(t.c2.b0), k.c1);
    MaskedSum(Td4(t.c2.b3), Td4(t.c1.b2), Td4(t.c0.b1), Td4(t.c3.b0), k.c2);
    MaskedSum(Td4(t.c3.b3), Td4(t.c2.b2), Td4(t.c1.b1), Td4(t.c0.b0), k.c3);
  }

  // ---- AES_KEY -------------------------------------------------------------------------------------

  class AesKey {
    var rdKey: array<Word>
    var rounds: nat

    ghost predicate Valid()
      reads this
    {
      && rdKey.Length == 4 * (AES_MAXNR + 1)
      && (rounds == 10 || rounds == 12 || rounds == 14)
    }
  }

  /** The bytes at buf[at..at+16] after storing a block there. */
  ghost predicate Stored(before: seq<Byte>, after: seq<Byte>, at: nat, block: seq<Byte>)
    requires |block| == 16
  {
    && |after| == |before|
    && at + 16 <= |before|
    && after == before[..at] + block + before[at + 16..]
  }

  method PutBlock(out: array<Byte>, at: nat, b: Block)
    requires at + 16 <= out.Length
    modifies out
    ensures Stored(old(out[..]), out[..], at, ToBytes(b))
  {
    hide ToBytes;
    var bytes := ToBytes(b);
    forall i | 0 <= i < 16 {
      out[at + i] := bytes[i];
    }
  }

  method GetBlock(inp: array<Byte>, at: nat) returns (b: Block)
    requires at + 16 <= inp.Length
    ensures b == ToBlock(inp[at..at + 16])
  {
    b := Block(Word(inp[at], inp[at + 1], inp[at + 2], inp[at + 3]),
               Word(inp[at + 4], inp[at + 5], inp[at + 6], inp[at + 7]),
               Word(inp[at + 8], inp[at + 9], inp[at + 10], inp[at + 11]),
               Word(inp[at + 12], inp[at + 13], inp[at + 14], inp[at + 15]));
  }

  /** The rounds of AES_encrypt, two at a time. */
  method EncryptBlock(b: Block, key: AesKey) returns (s: Block)
    requires key.Valid()
    ensures s == Cipher(b, key.rdKey[..], key.rounds)
  {
    hide EncRound, Round, EncLast, FinalRound, AddRoundKey;
    ghost var w := key.rdKey[..];
    var rk := key.rdKey;
    s := AddRoundKey(b, Block(rk[0], rk[1], rk[2], rk[3]));
    var t: Block;
    var p := 0;
    var r := key.rounds / 2;
    while true
      invariant 0 < r <= key.rounds / 2
      invariant p == 8 * (key.rounds / 2 - r)
      invariant s == Rounds(b, w, p / 4)
      decreases r
    {
      t := EncRound(s, Block(rk[p + 4], rk[p + 5], rk[p + 6], rk[p + 7]));
      EncRoundIsRound(s, RoundKey(w, p / 4 + 1));
      p := p + 8;
      r := r - 1;
      if r == 0 {
        break;
      }
      s := EncRound(t, Block(rk[p], rk[p + 1], rk[p + 2], rk[p + 3]));
      EncRoundIsRound(t, RoundKey(w, p / 4));
    }
    s := EncLast(t, Block(rk[p], rk[p + 1], rk[p + 2], rk[p + 3]));
    EncLastIsFinalRound(t, RoundKey(w, p / 4));
  }

  /** AES_encrypt; `inp` and `out` may be the same array. */
  method Encrypt(inp: array<Byte>, inAt: nat, out: array<Byte>, outAt: nat, key: AesKey)
    requires key.Valid()
    requires inAt + 16 <= inp.Length && outAt + 16 <= out.Length
    modifies out
    ensures Stored(old(out[..]), out[..], outAt,
                   EncryptBytes(old(inp[inAt..inAt + 16]), key.rdKey[..], key.rounds))
  {
    hide Cipher, ToBlock, ToBytes, Stored;
    ghost var w := key.rdKey[..];
    var b := GetBlock(inp, inAt);
    var s := EncryptBlock(b, key);
    PutBlock(out, outAt, s);
    assert key.rdKey[..] == w;
  }

  /** The rounds of AES_decrypt, two at a time. */
  method DecryptBlock(b: Block, key: AesKey) returns (s: Block)
    requires key.Valid()
    ensures s == EqInvCipher(b, key.rdKey[..], key.rounds)
  {
    hide DecRound, EqRound, DecLast, EqFinalRound, AddRoundKey;
    ghost var dw := key.rdKey[..];
    var rk := key.rdKey;
    s := AddRoundKey(b, Block(rk[0], rk[1], rk[2], rk[3]));
    var t: Block;
    var p := 0;
    var r := key.rounds / 2;
    while true
      invariant 0 < r <= key.rounds / 2
      invariant p == 8 * (key.rounds / 2 - r)
      invariant s == EqRounds(b, dw, p / 4)
      decreases r
    {
      t := DecRound(s, Block(rk[p + 4], rk[p + 5], rk[p + 6], rk[p + 7]));
      DecRoundIsEqRound(s, RoundKey(dw, p / 4 + 1));
      p := p + 8;
      r := r - 1;
      if r == 0 {
        break;
      }
      s := DecRound(t, Block(rk[p], rk[p + 1], rk[p + 2], rk[p + 3]));
      DecRoundIsEqRound(t, RoundKey(dw, p / 4));
    }
    s := DecLast(t, Block(rk[p], rk[p + 1], rk[p + 2], rk[p + 3]));
    DecLastIsEqFinalRound(t, RoundKey(dw, p / 4));
  }

  /** AES_decrypt; `inp` and `out` may be the same array. */
  method Decrypt(inp: array<Byte>, inAt: nat, out: array<Byte>, outAt: nat, key: AesKey)
    requires key.Valid()
    requires inAt + 16 <= inp.Length && outAt + 16 <= out.Length
    modifies out
    ensures Stored(old(out[..]), out[..], outAt,
                   DecryptBytes(old(inp[inAt..inAt + 16]), key.rdKey[..], key.rounds))
  {
    hide EqInvCipher, ToBlock, ToBytes, Stored;
    ghost var dw := key.rdKey[..];
    var b := GetBlock(inp, inAt);
    var s := DecryptBlock(b, key);
    PutBlock(out, outAt, s);
    assert key.rdKey[..] == dw;
  }
}
