/**
  Steps of the worked examples of FIPS 197, which tie the transformations and the key expansion to the
  standard's own numbers: appendix B for a full round and the last one, appendix A for the three key sizes.
 */
module AesExample {
  import opened AesWord
  import opened AesCipher
  import opened AesKeys

  function Words(a: bv32, b: bv32, c: bv32, d: bv32): Block {
    Block(FromU32(a), FromU32(b), FromU32(c), FromU32(d))
  }

  lemma AddWords(a: bv32, b: bv32, c: bv32, d: bv32, k0: bv32, k1: bv32, k2: bv32, k3: bv32)
    ensures AddRoundKey(Words(a, b, c, d), Words(k0, k1, k2, k3)) == Words(a ^ k0, b ^ k1, c ^ k2, d ^ k3)
  {
    hide FromU32, XorWord;
    XorIsU32Xor(a, k0);
    XorIsU32Xor(b, k1);
    XorIsU32Xor(c, k2);
    XorIsU32Xor(d, k3);
  }

  lemma FirstSubA()
    ensures SubWord(FromU32(0x193de3be)) == FromU32(0xd42711ae)
    ensures SubWord(FromU32(0xa0f4e22b)) == FromU32(0xe0bf98f1)
  {}

  lemma FirstSubB()
    ensures SubWord(FromU32(0x9ac68d2a)) == FromU32(0xb8b45de5)
    ensures SubWord(FromU32(0xe9f84808)) == FromU32(0x1e415230)
  {}

  lemma FirstShift()
    ensures ShiftRows(Words(0xd42711ae, 0xe0bf98f1, 0xb8b45de5, 0x1e415230)) ==
            Words(0xd4bf5d30, 0xe0b452ae, 0xb84111f1, 0x1e2798e5)
  {}

  lemma FirstMix()
    ensures MixColumns(Words(0xd4bf5d30, 0xe0b452ae, 0xb84111f1, 0x1e2798e5)) ==
            Words(0x046681e5, 0xe0cb199a, 0x48f8d37a, 0x2806264c)
  {}

  /** The first round of appendix B. */
  lemma FirstRound()
    ensures Round(Words(0x193de3be, 0xa0f4e22b, 0x9ac68d2a, 0xe9f84808),
                  Words(0xa0fafe17, 0x88542cb1, 0x23a33939, 0x2a6c7605)) ==
            Words(0xa49c7ff2, 0x689f352b, 0x6b5bea43, 0x026a5049)
  {
    hide SubWord, FromU32, XorWord, ShiftRows, MixColumns;
    FirstSubA();
    FirstSubB();
    FirstShift();
    FirstMix();
    AddWords(0x046681e5, 0xe0cb199a, 0x48f8d37a, 0x2806264c,
             0xa0fafe17, 0x88542cb1, 0x23a33939, 0x2a6c7605);
  }

  lemma LastSubA()
    ensures SubWord(FromU32(0xeb40f21e)) == FromU32(0xe9098972)
    ensures SubWord(FromU32(0x592e3884)) == FromU32(0xcb31075f)
  {}

  lemma LastSubB()
    ensures SubWord(FromU32(0x8ba113e7)) == FromU32(0x3d327d94)
    ensures SubWord(FromU32(0x1bc342d2)) == FromU32(0xaf2e2cb5)
  {}

  lemma LastShift()
    ensures ShiftRows(Words(0xe9098972, 0xcb31075f, 0x3d327d94, 0xaf2e2cb5)) ==
            Words(0xe9317db5, 0xcb322c72, 0x3d2e895f, 0xaf090794)
  {}

  /** The last round of appendix B, which gives the ciphertext. */
  lemma LastRound()
    ensures FinalRound(Words(0xeb40f21e, 0x592e3884, 0x8ba113e7, 0x1bc342d2),
                       Words(0xd014f9a8, 0xc9ee2589, 0xe13f0cc8, 0xb6630ca6)) ==
            Words(0x3925841d, 0x02dc09fb, 0xdc118597, 0x196a0b32)
  {
    hide SubWord, FromU32, XorWord, ShiftRows, MixColumns;
    LastSubA();
    LastSubB();
    LastShift();
    AddWords(0xe9317db5, 0xcb322c72, 0x3d2e895f, 0xaf090794,
             0xd014f9a8, 0xc9ee2589, 0xe13f0cc8, 0xb6630ca6);
  }

  /** Word 4 of the 128-bit key of appendix A.1. */
  lemma Key128()
    ensures XorWord(FromU32(0x2b7e1516), ScheduleCore(FromU32(0x09cf4f3c), 4, 4)) == FromU32(0xa0fafe17)
  {
    assert SubWord(FromU32(0xcf4f3c09)) == FromU32(0x8a84eb01);
    hide SubWord;
    assert RotWord(FromU32(0x09cf4f3c)) == FromU32(0xcf4f3c09);
    assert Rcon(1) == FromU32(0x01000000);
  }

  /** Word 6 of the 192-bit key of appendix A.2. */
  lemma Key192()
    ensures XorWord(FromU32(0x8e73b0f7), ScheduleCore(FromU32(0x522c6b7b), 6, 6)) == FromU32(0xfe0c91f7)
  {
    assert SubWord(FromU32(0x2c6b7b52)) == FromU32(0x717f2100);
    hide SubWord;
    assert RotWord(FromU32(0x522c6b7b)) == FromU32(0x2c6b7b52);
    assert Rcon(1) == FromU32(0x01000000);
  }

  /** Word 8 of the 256-bit key of appendix A.3. */
  lemma Key256()
    ensures XorWord(FromU32(0x603deb10), ScheduleCore(FromU32(0x0914dff4), 8, 8)) == FromU32(0x9ba35411)
  {
    assert SubWord(FromU32(0x14dff409)) == FromU32(0xfa9ebf01);
    hide SubWord;
    assert RotWord(FromU32(0x0914dff4)) == FromU32(0x14dff409);
    assert Rcon(1) == FromU32(0x01000000);
  }

  /** Word 12 of the same key, which is substituted but not rotated. */
  lemma Key256Middle()
    ensures XorWord(FromU32(0x1f352c07), ScheduleCore(FromU32(0x2067fcde), 12, 8)) == FromU32(0xa8b09c1a)
  {
    assert SubWord(FromU32(0x2067fcde)) == FromU32(0xb785b01d);
    hide SubWord;
  }
}
