/**
  The transformations of FIPS 197, the cipher and its two inverses made of them, and the proof that
  they undo each other.
 */
module AesCipher {
  import opened AesWord

  /** The state, one word for each column. */
  datatype Block = Block(c0: Word, c1: Word, c2: Word, c3: Word)

  // ---- Transformations of section 5.1 of FIPS 197 ------------------------------------------------

  function SubBytes(s: Block): Block {
    Block(SubWord(s.c0), SubWord(s.c1), SubWord(s.c2), SubWord(s.c3))
  }

  function ShiftRows(s: Block): Block {
    Block(Word(s.c0.b3, s.c1.b2, s.c2.b1, s.c3.b0), Word(s.c1.b3, s.c2.b2, s.c3.b1, s.c0.b0),
          Word(s.c2.b3, s.c3.b2, s.c0.b1, s.c1.b0), Word(s.c3.b3, s.c0.b2, s.c1.b1, s.c2.b0))
  }

  function MixColumns(s: Block): Block {
    Block(MixColumn(s.c0), MixColumn(s.c1), MixColumn(s.c2), MixColumn(s.c3))
  }

  function AddRoundKey(s: Block, k: Block): Block {
    Block(XorWord(s.c0, k.c0), XorWord(s.c1, k.c1), XorWord(s.c2, k.c2), XorWord(s.c3, k.c3))
  }

  // ---- Transformations of section 5.3 ------------------------------------------------------------

  function InvSubBytes(s: Block): Block {
    Block(InvSubWord(s.c0), InvSubWord(s.c1), InvSubWord(s.c2), InvSubWord(s.c3))
  }

  function InvShiftRows(s: Block): Block {
    Block(Word(s.c0.b3, s.c3.b2, s.c2.b1, s.c1.b0), Word(s.c1.b3, s.c0.b2, s.c3.b1, s.c2.b0),
          Word(s.c2.b3, s.c1.b2, s.c0.b1, s.c3.b0), Word(s.c3.b3, s.c2.b2, s.c1.b1, s.c0.b0))
  }

  function InvMixColumns(s: Block): Block {
    Block(InvMixColumn(s.c0), InvMixColumn(s.c1), InvMixColumn(s.c2), InvMixColumn(s.c3))
  }

  lemma SubBytesInverse(s: Block)
    ensures InvSubBytes(SubBytes(s)) == s
  {
    hide SubWord, InvSubWord;
    SubWordInverse(s.c0);
    SubWordInverse(s.c1);
    SubWordInverse(s.c2);
    SubWordInverse(s.c3);
  }

  lemma SubShiftCommute(s: Block)
    ensures InvShiftRows(InvSubBytes(s)) == InvSubBytes(InvShiftRows(s))
  {
    hide InvSBox;
  }

  lemma MixColumnsInverse(s: Block)
    ensures InvMixColumns(MixColumns(s)) == s
  {
    hide MixColumn, InvMixColumn;
    MixColumnInverse(s.c0);
    MixColumnInverse(s.c1);
    MixColumnInverse(s.c2);
    MixColumnInverse(s.c3);
  }

  lemma InvMixColumnsXor(s: Block, k: Block)
    ensures InvMixColumns(AddRoundKey(s, k)) == AddRoundKey(InvMixColumns(s), InvMixColumns(k))
  {
    hide XorWord, InvMixColumn;
    InvMixColumnXor(s.c0, k.c0);
    InvMixColumnXor(s.c1, k.c1);
    InvMixColumnXor(s.c2, k.c2);
    InvMixColumnXor(s.c3, k.c3);
  }

  lemma AddRoundKeyCancel(s: Block, k: Block)
    ensures AddRoundKey(AddRoundKey(s, k), k) == s
  {
    hide XorWord;
    XorWordCancel(s.c0, k.c0);
    XorWordCancel(s.c1, k.c1);
    XorWordCancel(s.c2, k.c2);
    XorWordCancel(s.c3, k.c3);
  }

  // ---- The cipher, its inverse and the equivalent inverse ------------------------------------------

  function RoundKey(w: seq<Word>, r: nat): Block
    requires 4 * r + 4 <= |w|
  {
    Block(w[4 * r], w[4 * r + 1], w[4 * r + 2], w[4 * r + 3])
  }

  function Round(s: Block, k: Block): Block {
    AddRoundKey(MixColumns(ShiftRows(SubBytes(s))), k)
  }

  /** The state of Cipher (section 5.1) after n full rounds. */
  function Rounds(b: Block, w: seq<Word>, n: nat): Block
    requires 4 * n + 4 <= |w|
  {
    if n == 0 then AddRoundKey(b, RoundKey(w, 0)) else Round(Rounds(b, w, n - 1), RoundKey(w, n))
  }

  function FinalRound(s: Block, k: Block): Block {
    AddRoundKey(ShiftRows(SubBytes(s)), k)
  }

  function Cipher(b: Block, w: seq<Word>, nr: nat): Block
    requires 0 < nr && 4 * nr + 4 <= |w|
  {
    FinalRound(Rounds(b, w, nr - 1), RoundKey(w, nr))
  }

  /** The state of InvCipher (section 5.3) after n full rounds. */
  function InvRounds(b: Block, w: seq<Word>, nr: nat, n: nat): Block
    requires n <= nr && 4 * nr + 4 <= |w|
  {
    if n == 0 then AddRoundKey(b, RoundKey(w, nr))
    else InvMixColumns(AddRoundKey(InvSubBytes(InvShiftRows(InvRounds(b, w, nr, n - 1))), RoundKey(w, nr - n)))
  }

  function InvCipher(b: Block, w: seq<Word>, nr: nat): Block
    requires 0 < nr && 4 * nr + 4 <= |w|
  {
    AddRoundKey(InvSubBytes(InvShiftRows(InvRounds(b, w, nr, nr - 1))), RoundKey(w, 0))
  }

  function EqRound(s: Block, k: Block): Block {
    AddRoundKey(InvMixColumns(InvShiftRows(InvSubBytes(s))), k)
  }

  /** The state of EqInvCipher (section 5.3.5) after n full rounds. */
  function EqRounds(b: Block, dw: seq<Word>, n: nat): Block
    requires 4 * n + 4 <= |dw|
  {
    if n == 0 then AddRoundKey(b, RoundKey(dw, 0)) else EqRound(EqRounds(b, dw, n - 1), RoundKey(dw, n))
  }

  function EqFinalRound(s: Block, k: Block): Block {
    AddRoundKey(InvShiftRows(InvSubBytes(s)), k)
  }

  function EqInvCipher(b: Block, dw: seq<Word>, nr: nat): Block
    requires 0 < nr && 4 * nr + 4 <= |dw|
  {
    EqFinalRound(EqRounds(b, dw, nr - 1), RoundKey(dw, nr))
  }

  /** dw is w with its round keys reversed and all but the outer two passed through InvMixColumns. */
  ghost predicate DecryptionSchedule(dw: seq<Word>, w: seq<Word>, nr: nat) {
    && 4 * nr + 4 <= |dw| && 4 * nr + 4 <= |w|
    && RoundKey(dw, 0) == RoundKey(w, nr)
    && RoundKey(dw, nr) == RoundKey(w, 0)
    && (forall r :: 0 < r < nr ==> RoundKey(dw, r) == InvMixColumns(RoundKey(w, nr - r)))
  }

  // ---- Inversion -------------------------------------------------------------------------------

  lemma ShiftRowsInverse(s: Block)
    ensures InvShiftRows(ShiftRows(s)) == s
  {}

  /** n rounds of InvCipher undo the last n rounds of Cipher. */
  lemma {:induction false} InvRoundsUndo(b: Block, w: seq<Word>, nr: nat, n: nat)
    requires n < nr && 4 * nr + 4 <= |w|
    ensures InvRounds(Cipher(b, w, nr), w, nr, n) == ShiftRows(SubBytes(Rounds(b, w, nr - 1 - n)))
  {
    hide SubBytes, InvSubBytes, ShiftRows, InvShiftRows, MixColumns, InvMixColumns, AddRoundKey, RoundKey;
    var m := nr - 1 - n;
    if n == 0 {
      AddRoundKeyCancel(ShiftRows(SubBytes(Rounds(b, w, nr - 1))), RoundKey(w, nr));
    } else {
      InvRoundsUndo(b, w, nr, n - 1);
      var x := Rounds(b, w, m + 1);
      ShiftRowsInverse(SubBytes(x));
      SubBytesInverse(x);
      var y := ShiftRows(SubBytes(Rounds(b, w, m)));
      AddRoundKeyCancel(MixColumns(y), RoundKey(w, m + 1));
      MixColumnsInverse(y);
    }
  }

  /** Section 5.3: InvCipher inverts Cipher under any sequence of round keys. */
  lemma InvCipherInverse(b: Block, w: seq<Word>, nr: nat)
    requires 0 < nr && 4 * nr + 4 <= |w|
    ensures InvCipher(Cipher(b, w, nr), w, nr) == b
  {
    hide SubBytes, InvSubBytes, ShiftRows, InvShiftRows, MixColumns, InvMixColumns, AddRoundKey, RoundKey, Cipher;
    InvRoundsUndo(b, w, nr, nr - 1);
    var x := Rounds(b, w, 0);
    ShiftRowsInverse(SubBytes(x));
    SubBytesInverse(x);
    AddRoundKeyCancel(b, RoundKey(w, 0));
  }

  lemma {:induction false} EqRoundsAreInvRounds(b: Block, dw: seq<Word>, w: seq<Word>, nr: nat, n: nat)
    requires n < nr && DecryptionSchedule(dw, w, nr)
    ensures EqRounds(b, dw, n) == InvRounds(b, w, nr, n)
  {
    hide SubBytes, InvSubBytes, ShiftRows, InvShiftRows, MixColumns, InvMixColumns, AddRoundKey, RoundKey;
    if n > 0 {
      EqRoundsAreInvRounds(b, dw, w, nr, n - 1);
      var s := InvRounds(b, w, nr, n - 1);
      SubShiftCommute(s);
      InvMixColumnsXor(InvSubBytes(InvShiftRows(s)), RoundKey(w, nr - n));
    }
  }

  /** Section 5.3.5: the equivalent inverse cipher computes InvCipher. */
  lemma EqInvCipherIsInvCipher(b: Block, dw: seq<Word>, w: seq<Word>, nr: nat)
    requires 0 < nr && DecryptionSchedule(dw, w, nr)
    ensures EqInvCipher(b, dw, nr) == InvCipher(b, w, nr)
  {
    hide SubBytes, InvSubBytes, ShiftRows, InvShiftRows, MixColumns, InvMixColumns, AddRoundKey, RoundKey;
    EqRoundsAreInvRounds(b, dw, w, nr, nr - 1);
    SubShiftCommute(InvRounds(b, w, nr, nr - 1));
  }

  // ---- Bytes of a block ------------------------------------------------------------------------

  function ToBlock(s: seq<Byte>): Block
    requires |s| == 16
  {
    Block(Word(s[0], s[1], s[2], s[3]), Word(s[4], s[5], s[6], s[7]),
          Word(s[8], s[9], s[10], s[11]), Word(s[12], s[13], s[14], s[15]))
  }

  function ToBytes(b: Block): (s: seq<Byte>)
    ensures |s| == 16 && ToBlock(s) == b
  {
    [b.c0.b3, b.c0.b2, b.c0.b1, b.c0.b0, b.c1.b3, b.c1.b2, b.c1.b1, b.c1.b0,
     b.c2.b3, b.c2.b2, b.c2.b1, b.c2.b0, b.c3.b3, b.c3.b2, b.c3.b1, b.c3.b0]
  }

  function EncryptBytes(s: seq<Byte>, w: seq<Word>, nr: nat): (r: seq<Byte>)
    requires |s| == 16 && 0 < nr && 4 * nr + 4 <= |w|
    ensures |r| == 16
  {
    ToBytes(Cipher(ToBlock(s), w, nr))
  }

  function DecryptBytes(s: seq<Byte>, dw: seq<Word>, nr: nat): (r: seq<Byte>)
    requires |s| == 16 && 0 < nr && 4 * nr + 4 <= |dw|
    ensures |r| == 16
  {
    ToBytes(EqInvCipher(ToBlock(s), dw, nr))
  }

  /** The block that AES_decrypt returns is the one AES_encrypt was given. */
  lemma DecryptEncrypt(s: seq<Byte>, dw: seq<Word>, w: seq<Word>, nr: nat)
    requires |s| == 16 && 0 < nr && DecryptionSchedule(dw, w, nr)
    ensures DecryptBytes(EncryptBytes(s, w, nr), dw, nr) == s
  {
    hide Cipher, EqInvCipher, InvCipher;
    var b := ToBlock(s);
    EqInvCipherIsInvCipher(Cipher(b, w, nr), dw, w, nr);
    InvCipherInverse(b, w, nr);
    assert ToBytes(b) == s;
  }
}
