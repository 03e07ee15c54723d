/**
  Key expansion of aes.c: AES_set_encrypt_key for the three key sizes and AES_set_decrypt_key.
 */
module AesKeys {
  import opened AesWord
  import opened AesCipher
  import opened Aes

  // ---- Section 5.2 of FIPS 197 ---------------------------------------------------------------------

  function RotWord(w: Word): Word {
    Word(w.b2, w.b1, w.b0, w.b3)
  }

  /** The powers 1, x, x^2, ... of section 5.2. */
  function RconByte(j: nat): Byte {
    if j <= 1 then Byte(1) else XTime(RconByte(j - 1))
  }

  function Rcon(j: nat): Word {
    Word(RconByte(j), ZERO, ZERO, ZERO)
  }

  function ScheduleCore(temp: Word, i: nat, nk: nat): Word
    requires 0 < nk
  {
    if i % nk == 0 then XorWord(SubWord(RotWord(temp)), Rcon(i / nk))
    else if nk > 6 && i % nk == 4 then SubWord(temp)
    else temp
  }

  /** w obeys the recurrence of section 5.2 on the words nk <= i < n. */
  ghost predicate Expanded(w: seq<Word>, nk: nat, n: nat)
    requires 0 < nk
  {
    && n <= |w|
    && (forall i :: nk <= i < n ==> w[i] == XorWord(w[i - nk], ScheduleCore(w[i - 1], i, nk)))
  }

  /** w is the expansion of the key: it starts with the key's words and obeys the recurrence. */
  ghost predicate EncryptionSchedule(w: seq<Word>, userKey: seq<Byte>, nk: nat, nr: nat)
    requires 0 < nk && 4 * nk <= |userKey|
  {
    && nk <= |w|
    && (forall j :: 0 <= j < nk ==> w[j] == KeyWord(userKey, j))
    && Expanded(w, nk, 4 * nr + 4)
  }

  function KeyWord(userKey: seq<Byte>, j: nat): Word
    requires 4 * j + 4 <= |userKey|
  {
    Word(userKey[4 * j], userKey[4 * j + 1], userKey[4 * j + 2], userKey[4 * j + 3])
  }

  /** The recurrence determines the whole schedule. */
  lemma {:induction false} ScheduleUnique(v: seq<Word>, w: seq<Word>, userKey: seq<Byte>, nk: nat, nr: nat, n: nat)
    requires 0 < nk && 4 * nk <= |userKey| && n <= 4 * nr + 4
    requires EncryptionSchedule(v, userKey, nk, nr) && EncryptionSchedule(w, userKey, nk, nr)
    ensures v[..n] == w[..n]
  {
    hide XorWord, ScheduleCore;
    if n > 0 {
      ScheduleUnique(v, w, userKey, nk, nr, n - 1);
      var i := n - 1;
      assert forall j :: 0 <= j < i ==> v[j] == v[..i][j];
      assert forall j :: 0 <= j < i ==> w[j] == w[..i][j];
      if i < nk {
        assert v[i] == w[i];
      } else {
        assert v[i - nk] == w[i - nk] && v[i - 1] == w[i - 1];
        assert v[i] == w[i];
      }
      assert v[..n] == v[..i] + [v[i]] && w[..n] == w[..i] + [w[i]];
    }
  }

  lemma ExpandedStart(w: seq<Word>, nk: nat)
    requires 0 < nk <= |w|
    ensures Expanded(w, nk, nk)
  {}

  // ---- The loops of AES_set_encrypt_key --------------------------------------------------------------

  const RCON: seq<Word> := [
    Word(Byte(0x01), ZERO, ZERO, ZERO), Word(Byte(0x02), ZERO, ZERO, ZERO),
    Word(Byte(0x04), ZERO, ZERO, ZERO), Word(Byte(0x08), ZERO, ZERO, ZERO),
    Word(Byte(0x10), ZERO, ZERO, ZERO), Word(Byte(0x20), ZERO, ZERO, ZERO),
    Word(Byte(0x40), ZERO, ZERO, ZERO), Word(Byte(0x80), ZERO, ZERO, ZERO),
    Word(Byte(0x1b), ZERO, ZERO, ZERO), Word(Byte(0x36), ZERO, ZERO, ZERO)]

  lemma RconTable(i: nat)
    requires i < 10
    ensures RCON[i] == Rcon(i + 1)
  {
    assert RconByte(2) == Byte(0x02) && RconByte(3) == Byte(0x04) && RconByte(4) == Byte(0x08);
    assert RconByte(5) == Byte(0x10) && RconByte(6) == Byte(0x20) && RconByte(7) == Byte(0x40);
    assert RconByte(8) == Byte(0x80) && RconByte(9) == Byte(0x1b) && RconByte(10) == Byte(0x36);
  }

  /** k ^ SubWord(RotWord(temp)) ^ rc as the code spells it, with four masked lookups. */
  function RotSubXor(k: Word, temp: Word, rc: Word): Word {
    XorWord(Xor5k(k, Keep3(Te4(temp.b2)), Keep2(Te4(temp.b1)), Keep1(Te4(temp.b0)), Keep0(Te4(temp.b3))), rc)
  }

  /** k ^ SubWord(temp), the extra step of 256-bit keys. */
  function SubXor(k: Word, temp: Word): Word {
    Xor5k(k, Keep3(Te4(temp.b3)), Keep2(Te4(temp.b2)), Keep1(Te4(temp.b1)), Keep0(Te4(temp.b0)))
  }

  function Xor5k(k: Word, a: Word, b: Word, c: Word, d: Word): Word {
    XorWord(XorWord(XorWord(XorWord(k, a), b), c), d)
  }

  lemma MaskedChain(k: Word, a: Word, b: Word, c: Word, d: Word)
    ensures Xor5k(k, Keep3(a), Keep2(b), Keep1(c), Keep0(d)) == XorWord(k, Word(a.b3, b.b2, c.b1, d.b0))
  {
    hide Xor;
    XorUnit(k.b3);
    XorUnit(k.b2);
    XorUnit(k.b1);
    XorUnit(k.b0);
    XorUnit(Xor(k.b3, a.b3));
    XorUnit(Xor(k.b2, b.b2));
    XorUnit(Xor(k.b1, c.b1));
  }

  lemma XorWordAssoc(a: Word, b: Word, c: Word)
    ensures XorWord(XorWord(a, b), c) == XorWord(a, XorWord(b, c))
  {}

  lemma RotSubXorIsCore(k: Word, temp: Word, i: nat, nk: nat)
    requires 0 < nk && i % nk == 0 && 0 < i / nk <= 10
    ensures RotSubXor(k, temp, RCON[i / nk - 1]) == XorWord(k, ScheduleCore(temp, i, nk))
  {
    hide SBox, XorWord, Xor5k, Rcon, Keep3, Keep2, Keep1, Keep0;
    MaskedChain(k, Te4(temp.b2), Te4(temp.b1), Te4(temp.b0), Te4(temp.b3));
    RconTable(i / nk - 1);
    XorWordAssoc(k, SubWord(RotWord(temp)), Rcon(i / nk));
  }

  lemma SubXorIsCore(k: Word, temp: Word, i: nat)
    requires i % 8 == 4
    ensures SubXor(k, temp) == XorWord(k, ScheduleCore(temp, i, 8))
  {
    hide SBox, XorWord, Xor5k, Keep3, Keep2, Keep1, Keep0;
    MaskedChain(k, Te4(temp.b3), Te4(temp.b2), Te4(temp.b1), Te4(temp.b0));
  }

  /** Stores the next word of the schedule. */
  method PutWord(rk: array<Word>, nk: nat, n: nat, v: Word)
    requires 0 < nk <= n < rk.Length
    requires Expanded(rk[..], nk, n)
    requires v == XorWord(rk[n - nk], ScheduleCore(rk[n - 1], n, nk))
    modifies rk
    ensures Expanded(rk[..], nk, n + 1)
    ensures rk[n] == v && forall j :: 0 <= j < rk.Length && j != n ==> rk[j] == old(rk[j])
  {
    hide XorWord, ScheduleCore;
    rk[n] := v;
  }

  lemma Remainder4(n: nat, d: nat)
    requires n % 4 == 0 && d <= 3
    ensures (n + d) % 4 == d
  {}

  lemma Remainder6(n: nat, d: nat)
    requires n % 6 == 0 && d <= 3
    ensures (n + d) % 6 == d
  {}

  lemma Remainder8(n: nat, d: nat)
    requires n % 4 == 0 && d <= 3
    ensures (n + d) % 8 == n % 8 + d
  {}

  lemma PlainCore(temp: Word, n: nat, nk: nat, d: nat)
    requires (nk == 4 || nk == 6 || nk == 8) && 1 <= d <= 3
    requires n % nk == 0 || (nk == 8 && n % nk == 4)
    ensures ScheduleCore(temp, n + d, nk) == temp
  {
    hide XorWord, SubWord, Rcon;
    if nk == 4 {
      Remainder4(n, d);
    } else if nk == 6 {
      Remainder6(n, d);
    } else {
      assert n % 4 == 0;
      Remainder8(n, d);
    }
  }

  /** Stores four words, of which only the first can use the substitution. */
  method PutFour(rk: array<Word>, nk: nat, n: nat, v: Word)
    requires (nk == 4 || nk == 6 || nk == 8) && nk <= n && n + 4 <= rk.Length
    requires n % nk == 0 || (nk == 8 && n % nk == 4)
    requires Expanded(rk[..], nk, n)
    requires v == XorWord(rk[n - nk], ScheduleCore(rk[n - 1], n, nk))
    modifies rk
    ensures Expanded(rk[..], nk, n + 4)
    ensures forall j :: 0 <= j < rk.Length && !(n <= j < n + 4) ==> rk[j] == old(rk[j])
  {
    hide XorWord, ScheduleCore, Expanded;
    PutWord(rk, nk, n, v);
    PlainCore(rk[n], n, nk, 1);
    PutWord(rk, nk, n + 1, XorWord(rk[n + 1 - nk], rk[n]));
    PlainCore(rk[n + 1], n, nk, 2);
    PutWord(rk, nk, n + 2, XorWord(rk[n + 2 - nk], rk[n + 1]));
    PlainCore(rk[n + 2], n, nk, 3);
    PutWord(rk, nk, n + 3, XorWord(rk[n + 3 - nk], rk[n + 2]));
  }

  method Expand128(rk: array<Word>)
    requires rk.Length == 60
    modifies rk
    ensures forall j :: 0 <= j < 4 || 44 <= j < 60 ==> rk[j] == old(rk[j])
    ensures Expanded(rk[..], 4, 44)
  {
    hide XorWord, RotSubXor, SubWord, Rcon, Expanded;
    var i, p := 0, 0;
    ExpandedStart(rk[..], 4);
    while true
      invariant 0 <= i < 10 && p == 4 * i
      invariant forall j :: 0 <= j < 4 || 44 <= j < 60 ==> rk[j] == old(rk[j])
      invariant Expanded(rk[..], 4, p + 4)
      decreases 10 - i
    {
      RotSubXorIsCore(rk[p], rk[p + 3], p + 4, 4);
      PutFour(rk, 4, p + 4, RotSubXor(rk[p], rk[p + 3], RCON[i]));
      i := i + 1;
      if i == 10 {
        return;
      }
      p := p + 4;
    }
  }

  method Expand192(rk: array<Word>)
    requires rk.Length == 60
    modifies rk
    ensures forall j :: 0 <= j < 6 || 52 <= j < 60 ==> rk[j] == old(rk[j])
    ensures Expanded(rk[..], 6, 52)
  {
    hide XorWord, RotSubXor, SubWord, Rcon, Expanded;
    var i, p := 0, 0;
    ExpandedStart(rk[..], 6);
    while true
      invariant 0 <= i < 8 && p == 6 * i
      invariant forall j :: 0 <= j < 6 || 52 <= j < 60 ==> rk[j] == old(rk[j])
      invariant Expanded(rk[..], 6, p + 6)
      decreases 8 - i
    {
      RotSubXorIsCore(rk[p], rk[p + 5], p + 6, 6);
      PutFour(rk, 6, p + 6, RotSubXor(rk[p], rk[p + 5], RCON[i]));
      i := i + 1;
      if i == 8 {
        return;
      }
      PutWord(rk, 6, p + 10, XorWord(rk[p + 4], rk[p + 9]));
      PutWord(rk, 6, p + 11, XorWord(rk[p + 5], rk[p + 10]));
      p := p + 6;
    }
  }

  method Expand256(rk: array<Word>)
    requires rk.Length == 60
    modifies rk
    ensures forall j :: 0 <= j < 8 ==> rk[j] == old(rk[j])
    ensures Expanded(rk[..], 8, 60)
  {
    hide XorWord, RotSubXor, SubXor, SubWord, Rcon, Expanded;
    var i, p := 0, 0;
    ExpandedStart(rk[..], 8);
    while true
      invariant 0 <= i < 7 && p == 8 * i
      invariant forall j :: 0 <= j < 8 ==> rk[j] == old(rk[j])
      invariant Expanded(rk[..], 8, p + 8)
      decreases 7 - i
    {
      RotSubXorIsCore(rk[p], rk[p + 7], p + 8, 8);
      PutFour(rk, 8, p + 8, RotSubXor(rk[p], rk[p + 7], RCON[i]));
      i := i + 1;
      if i == 7 {
        return;
      }
      SubXorIsCore(rk[p + 4], rk[p + 11], p + 12);
      PutFour(rk, 8, p + 12, SubXor(rk[p + 4], rk[p + 11]));
      p := p + 8;
    }
  }

  // ---- AES_set_encrypt_key -------------------------------------------------------------------------

  function RoundsFor(bits: int): nat {
    if bits == 128 then 10 else if bits == 192 then 12 else 14
  }

  predicate KeySize(bits: int) {
    bits == 128 || bits == 192 || bits == 256
  }

  /** GETU32 of the first n words of the key. */
  method LoadKey(userKey: array<Byte>, n: nat, rk: array<Word>)
    requires 4 * n <= userKey.Length && n <= rk.Length
    modifies rk
    ensures forall j :: 0 <= j < n ==> rk[j] == KeyWord(userKey[..], j)
    ensures rk[n..] == old(rk[n..])
  {
    forall j | 0 <= j < n {
      rk[j] := Word(userKey[4 * j], userKey[4 * j + 1], userKey[4 * j + 2], userKey[4 * j + 3]);
    }
  }

  method SetEncryptKey(userKey: array?<Byte>, bits: int, key: AesKey?) returns (status: int)
    requires key != null ==> key.rdKey.Length == 4 * (AES_MAXNR + 1)
    requires userKey != null && KeySize(bits) ==> bits / 8 <= userKey.Length
    modifies key, if key == null then {} else {key.rdKey}
    ensures status == if userKey == null || key == null then -1 else if !KeySize(bits) then -2 else 0
    ensures status == 0 ==>
              && key.Valid() && key.rounds == RoundsFor(bits) && key.rdKey == old(key.rdKey)
              && EncryptionSchedule(key.rdKey[..], userKey[..], bits / 32, key.rounds)
              && key.rdKey[4 * key.rounds + 4..] == old(key.rdKey[4 * RoundsFor(bits) + 4..])
    ensures status != 0 && key != null ==> unchanged(key) && unchanged(key.rdKey)
  {
    hide KeyWord, Expanded;
    if userKey == null || key == null {
      return -1;
    }
    if bits != 128 && bits != 192 && bits != 256 {
      return -2;
    }
    var rk := key.rdKey;
    key.rounds := if bits == 128 then 10 else if bits == 192 then 12 else 14;
    LoadKey(userKey, bits / 32, rk);
    if bits == 128 {
      Expand128(rk);
    } else if bits == 192 {
      Expand192(rk);
    } else {
      Expand256(rk);
    }
    return 0;
  }

  // ---- AES_set_decrypt_key -------------------------------------------------------------------------

  /** Td0[Te4[.] & 0xff] ^ ...: the substitutions cancel and InvMixColumn is left. */
  function InvMixByTables(w: Word): Word {
    XorWord(XorWord(XorWord(Td0(Te4(w.b3).b0), Td1(Te4(w.b2).b0)), Td2(Te4(w.b1).b0)), Td3(Te4(w.b0).b0))
  }

  lemma InvMixByTablesIsInvMixColumn(w: Word)
    ensures InvMixByTables(w) == InvMixColumn(w)
  {
    hide SBox, InvSBox, Xor, Xor4, Mul9, MulB, MulD, MulE;
    SBoxInverse(w.b3);
    SBoxInverse(w.b2);
    SBoxInverse(w.b1);
    SBoxInverse(w.b0);
    var p, q, r, s := w.b3, w.b2, w.b1, w.b0;
    Rotations(MulE(p), MulB(q), MulD(r), Mul9(s));
    Rotations(Mul9(p), MulE(q), MulB(r), MulD(s));
    Rotations(MulD(p), Mul9(q), MulE(r), MulB(s));
    Rotations(MulB(p), MulD(q), Mul9(r), MulE(s));
  }

  /** Overwrites the four words of round key a. */
  method PutRoundKey(rk: array<Word>, a: nat, k: Block)
    requires 4 * a + 4 <= rk.Length
    modifies rk
    ensures RoundKey(rk[..], a) == k
    ensures forall r :: 0 <= r && 4 * r + 4 <= rk.Length && r != a ==>
                          RoundKey(rk[..], r) == old(RoundKey(rk[..], r))
    ensures rk[4 * a + 4..] == old(rk[4 * a + 4..])
  {
    var i := 4 * a;
    rk[i], rk[i + 1], rk[i + 2], rk[i + 3] := k.c0, k.c1, k.c2, k.c3;
  }

  method SwapRoundKeys(rk: array<Word>, a: nat, b: nat)
    requires a < b && 4 * b + 4 <= rk.Length
    modifies rk
    ensures RoundKey(rk[..], a) == old(RoundKey(rk[..], b))
    ensures RoundKey(rk[..], b) == old(RoundKey(rk[..], a))
    ensures forall r :: 0 <= r && 4 * r + 4 <= rk.Length && r != a && r != b ==>
                          RoundKey(rk[..], r) == old(RoundKey(rk[..], r))
    ensures rk[4 * b + 4..] == old(rk[4 * b + 4..])
  {
    var ka := Block(rk[4 * a], rk[4 * a + 1], rk[4 * a + 2], rk[4 * a + 3]);
    var kb := Block(rk[4 * b], rk[4 * b + 1], rk[4 * b + 2], rk[4 * b + 3]);
    PutRoundKey(rk, a, kb);
    PutRoundKey(rk, b, ka);
  }

  /** The first loop of AES_set_decrypt_key, with i and j counted in round keys. */
  method ReverseRoundKeys(rk: array<Word>, nr: nat)
    requires 4 * nr + 4 <= rk.Length
    modifies rk
    ensures forall r :: 0 <= r <= nr ==> RoundKey(rk[..], r) == old(RoundKey(rk[..], nr - r))
    ensures rk[4 * nr + 4..] == old(rk[4 * nr + 4..])
  {
    hide RoundKey;
    var i, j := 0, nr;
    while i < j
      invariant 0 <= i <= nr + 1 && j == nr - i && i <= j + 1
      invariant forall r :: 0 <= r < i ==> RoundKey(rk[..], r) == old(RoundKey(rk[..], nr - r))
      invariant forall r :: j < r <= nr ==> RoundKey(rk[..], r) == old(RoundKey(rk[..], nr - r))
      invariant forall r :: i <= r <= j ==> RoundKey(rk[..], r) == old(RoundKey(rk[..], r))
      invariant rk[4 * nr + 4..] == old(rk[4 * nr + 4..])
    {
      SwapRoundKeys(rk, i, j);
      i, j := i + 1, j - 1;
    }
  }

  /** One iteration of the second loop: InvMixColumns of one round key, by table lookups. */
  method InvMixRoundKey(rk: array<Word>, a: nat)
    requires 4 * a + 4 <= rk.Length
    modifies rk
    ensures RoundKey(rk[..], a) == InvMixColumns(old(RoundKey(rk[..], a)))
    ensures forall r :: 0 <= r && 4 * r + 4 <= rk.Length && r != a ==>
                          RoundKey(rk[..], r) == old(RoundKey(rk[..], r))
    ensures rk[4 * a + 4..] == old(rk[4 * a + 4..])
  {
    hide InvMixByTables, InvMixColumn;
    var i := 4 * a;
    InvMixByTablesIsInvMixColumn(rk[i]);
    InvMixByTablesIsInvMixColumn(rk[i + 1]);
    InvMixByTablesIsInvMixColumn(rk[i + 2]);
    InvMixByTablesIsInvMixColumn(rk[i + 3]);
    PutRoundKey(rk, a, Block(InvMixByTables(rk[i]), InvMixByTables(rk[i + 1]),
                             InvMixByTables(rk[i + 2]), InvMixByTables(rk[i + 3])));
  }

  /** The schedule that AES_set_encrypt_key makes of a key. */
  ghost predicate ScheduleOf(w: seq<Word>, userKey: seq<Byte>, bits: int) {
    && KeySize(bits) && bits / 8 <= |userKey|
    && EncryptionSchedule(w, userKey, bits / 32, RoundsFor(bits))
  }

  /** AES_set_decrypt_key; w is the encryption schedule that it starts from. */
  method SetDecryptKey(userKey: array?<Byte>, bits: int, key: AesKey?) returns (status: int, ghost w: seq<Word>)
    requires key != null ==> key.rdKey.Length == 4 * (AES_MAXNR + 1)
    requires userKey != null && KeySize(bits) ==> bits / 8 <= userKey.Length
    modifies key, if key == null then {} else {key.rdKey}
    ensures status == if userKey == null || key == null then -1 else if !KeySize(bits) then -2 else 0
    ensures status == 0 ==>
              && key.Valid() && key.rounds == RoundsFor(bits) && key.rdKey == old(key.rdKey)
              && ScheduleOf(w, userKey[..], bits)
              && DecryptionSchedule(key.rdKey[..], w, key.rounds)
              && key.rdKey[4 * key.rounds + 4..] == old(key.rdKey[4 * RoundsFor(bits) + 4..])
    ensures status != 0 && key != null ==> unchanged(key) && unchanged(key.rdKey)
  {
    hide RoundKey, EncryptionSchedule, InvMixColumns;
    status := SetEncryptKey(userKey, bits, key);
    w := [];
    if status < 0 {
      return;
    }
    var rk, nr := key.rdKey, key.rounds;
    w := rk[..];
    ReverseRoundKeys(rk, nr);
    var i := 1;
    while i < nr
      invariant 1 <= i <= nr
      invariant key.rdKey == rk && key.rounds == nr
      invariant RoundKey(rk[..], 0) == RoundKey(w, nr) && RoundKey(rk[..], nr) == RoundKey(w, 0)
      invariant forall r :: 0 < r < i ==> RoundKey(rk[..], r) == InvMixColumns(RoundKey(w, nr - r))
      invariant forall r :: i <= r < nr ==> RoundKey(rk[..], r) == RoundKey(w, nr - r)
      invariant rk[4 * nr + 4..] == w[4 * nr + 4..]
    {
      InvMixRoundKey(rk, i);
      i := i + 1;
    }
    return 0, w;
  }

  // ---- The main theorem ------------------------------------------------------------------------------

  lemma {:induction false} RoundsPrefix(b: Block, v: seq<Word>, w: seq<Word>, nr: nat, n: nat)
    requires n <= nr && 4 * nr + 4 <= |v| && 4 * nr + 4 <= |w|
    requires v[..4 * nr + 4] == w[..4 * nr + 4]
    ensures Rounds(b, v, n) == Rounds(b, w, n) && RoundKey(v, n) == RoundKey(w, n)
  {
    hide Round, AddRoundKey;
    assert forall j :: 0 <= j < 4 * nr + 4 ==> v[j] == v[..4 * nr + 4][j] == w[j];
    if n > 0 {
      RoundsPrefix(b, v, w, nr, n - 1);
    }
  }

  /**
    For every key of a supported size and every block: if the first schedule comes from
    AES_set_encrypt_key and the second from AES_set_decrypt_key for the same key, AES_decrypt under
    the second inverts AES_encrypt under the first.
   */
  lemma DecryptInvertsEncrypt(userKey: seq<Byte>, bits: int, ew: seq<Word>, dw: seq<Word>, w: seq<Word>,
                              block: seq<Byte>)
    requires ScheduleOf(ew, userKey, bits) && ScheduleOf(w, userKey, bits)
    requires DecryptionSchedule(dw, w, RoundsFor(bits))
    requires |block| == 16
    ensures DecryptBytes(EncryptBytes(block, ew, RoundsFor(bits)), dw, RoundsFor(bits)) == block
  {
    hide RoundKey, KeyWord, XorWord, ScheduleCore, Cipher, EqInvCipher;
    var nr := RoundsFor(bits);
    ScheduleUnique(ew, w, userKey, bits / 32, nr, 4 * nr + 4);
    CipherPrefix(ToBlock(block), ew, w, nr);
    DecryptEncrypt(block, dw, w, nr);
  }

  lemma CipherPrefix(b: Block, v: seq<Word>, w: seq<Word>, nr: nat)
    requires 0 < nr && 4 * nr + 4 <= |v| && 4 * nr + 4 <= |w|
    requires v[..4 * nr + 4] == w[..4 * nr + 4]
    ensures Cipher(b, v, nr) == Cipher(b, w, nr)
  {
    hide RoundKey, Rounds, FinalRound;
    RoundsPrefix(b, v, w, nr, nr - 1);
    RoundsPrefix(b, v, w, nr, nr);
  }
}
