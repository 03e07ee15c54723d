/**
  AES_cbc_encrypt: cipher block chaining (section 6.2 of NIST SP 800-38A) in both directions, with
  the treatment that aes.c gives a short last block.
 */
module AesCbc {
  import opened AesWord
  import opened AesCipher
  import opened Aes
  import opened AesKeys

  const ZERO_BLOCK: seq<Byte> := seq(16, _ => ZERO)

  type Block16 = s: seq<Byte> | |s| == 16 witness ZERO_BLOCK

  /** The forward and inverse cipher functions of SP 800-38A. */
  type BlockFunction = Block16 -> Block16

  function Encryptor(w: seq<Word>, nr: nat): BlockFunction
    requires 0 < nr && 4 * nr + 4 <= |w|
  {
    (s: Block16) => EncryptBytes(s, w, nr)
  }

  function Decryptor(dw: seq<Word>, nr: nat): BlockFunction
    requires 0 < nr && 4 * nr + 4 <= |dw|
  {
    (s: Block16) => DecryptBytes(s, dw, nr)
  }

  function XorBytes(a: seq<Byte>, b: seq<Byte>): (r: seq<Byte>)
    requires |a| == |b|
    ensures |r| == |a|
  {
    seq(|a|, i requires 0 <= i < |a| => Xor(a[i], b[i]))
  }

  /** A short last block is combined with the front of ivec and completed with the rest of it. */
  function XorShort(a: seq<Byte>, iv: seq<Byte>): (r: seq<Byte>)
    requires |a| <= |iv|
    ensures |r| == |iv|
  {
    XorBytes(a, iv[..|a|]) + iv[|a|..]
  }

  function RoundUp(n: nat): nat {
    (n + 15) / 16 * 16
  }

  /** What encryption writes to `out`. */
  function CbcEncrypted(p: seq<Byte>, iv: Block16, e: BlockFunction): (c: seq<Byte>)
    ensures |c| == RoundUp(|p|)
    decreases |p|
  {
    if |p| >= 16 then
      var block := e(XorBytes(p[..16], iv));
      block + CbcEncrypted(p[16..], block, e)
    else if |p| > 0 then e(XorShort(p, iv))
    else []
  }

  /** What encryption leaves in `ivec`. */
  function EncryptedIv(p: seq<Byte>, iv: Block16, e: BlockFunction): Block16
    decreases |p|
  {
    if |p| >= 16 then EncryptedIv(p[16..], e(XorBytes(p[..16], iv)), e)
    else if |p| > 0 then e(XorShort(p, iv))
    else iv
  }

  /** What decryption of n bytes writes to `out`. */
  function CbcDecrypted(c: seq<Byte>, n: nat, iv: Block16, d: BlockFunction): (p: seq<Byte>)
    requires RoundUp(n) <= |c|
    ensures |p| == n
    decreases n
  {
    if n >= 16 then XorBytes(d(c[..16]), iv) + CbcDecrypted(c[16..], n - 16, c[..16], d)
    else if n > 0 then XorBytes(d(c[..16]), iv)[..n]
    else []
  }

  /** What decryption of n bytes leaves in `ivec`: after a short last block, the deciphered block. */
  function DecryptedIv(c: seq<Byte>, n: nat, iv: Block16, d: BlockFunction): Block16
    requires RoundUp(n) <= |c|
    decreases n
  {
    if n >= 16 then DecryptedIv(c[16..], n - 16, c[..16], d)
    else if n > 0 then d(c[..16])
    else iv
  }

  // ---- Section 6.2 of SP 800-38A, block by block -------------------------------------------------------

  /** The block chained into block j: ivec for the first, the previous block of ciphertext for the others. */
  function Chain(c: seq<Byte>, iv: Block16, j: nat): Block16
    requires 16 * j <= |c|
  {
    if j == 0 then iv else c[16 * j - 16..16 * j]
  }

  /** On its first n bytes z is the exclusive-or of x and y; the others are those of y. */
  ghost predicate XorOf(z: Block16, x: seq<Byte>, y: Block16, n: nat)
    requires |x| == n <= 16
  {
    && (forall i :: 0 <= i < n ==> z[i].bits == x[i].bits ^ y[i].bits)
    && (forall i :: n <= i < 16 ==> z[i] == y[i])
  }

  lemma XorShortIsXorOf(a: seq<Byte>, iv: Block16)
    requires |a| <= 16
    ensures XorOf(XorShort(a, iv), a, iv, |a|)
  {}

  lemma {:induction false} ChainStep(block: Block16, rest: seq<Byte>, iv: Block16, j: nat)
    requires 1 <= j && 16 * (j - 1) <= |rest|
    ensures Chain(block + rest, iv, j) == Chain(rest, block, j - 1)
  {
    var c := block + rest;
    if j == 1 {
      assert c[0..16] == block;
    } else {
      assert c[16 * j - 16..16 * j] == rest[16 * j - 32..16 * j - 16];
    }
  }

  lemma SliceTail<T>(a: seq<T>, b: seq<T>, from: nat, to: nat)
    requires from <= to <= |b|
    ensures (a + b)[|a| + from..|a| + to] == b[from..to]
  {}

  lemma SliceDrop<T>(s: seq<T>, d: nat, from: nat, to: nat)
    requires d <= |s| && from <= to <= |s| - d
    ensures s[d..][from..to] == s[d + from..d + to]
  {}

  lemma FirstBlock(p: seq<Byte>, iv: Block16, e: BlockFunction) returns (x: Block16)
    requires 0 < |p|
    ensures var c, n := CbcEncrypted(p, iv, e), if |p| < 16 then |p| else 16;
            && 16 <= |c| && c[0..16] == e(x) && XorOf(x, p[0..n], Chain(c, iv, 0), n)
  {
    hide XorBytes, XorShort, XorOf, Chain;
    var c, n := CbcEncrypted(p, iv, e), if |p| < 16 then |p| else 16;
    x := XorShort(p[0..n], iv);
    XorShortIsXorOf(p[0..n], iv);
    ChainStart(c, iv);
    if n == 16 {
      assert p[0..16] == p[..16];
      XorShortFull(p[..16], iv);
      assert c[0..16] == e(x);
    } else {
      assert p[0..n] == p && c[0..16] == c;
    }
  }

  /** Block j of the ciphertext enciphers block j of the plaintext, whole or short, XORed with its chain block. */
  lemma {:induction false} CbcBlock(p: seq<Byte>, iv: Block16, e: BlockFunction, j: nat) returns (x: Block16)
    requires 16 * j < |p|
    ensures var c, n := CbcEncrypted(p, iv, e), if |p| < 16 * j + 16 then |p| - 16 * j else 16;
            && 16 * j + 16 <= |c| && c[16 * j..16 * j + 16] == e(x)
            && XorOf(x, p[16 * j..16 * j + n], Chain(c, iv, j), n)
    decreases |p|
  {
    hide XorBytes, XorShort, XorOf, Chain;
    if j == 0 {
      x := FirstBlock(p, iv, e);
    } else {
      var block, k := e(XorBytes(p[..16], iv)), 16 * (j - 1);
      var rest := CbcEncrypted(p[16..], block, e);
      x := CbcBlock(p[16..], block, e, j - 1);
      ChainStep(block, rest, iv, j);
      SliceTail(block, rest, k, k + 16);
      var n := if |p| < k + 32 then |p| - k - 16 else 16;
      SliceDrop(p, 16, k, k + n);
    }
  }

  lemma ChainStart(c: seq<Byte>, iv: Block16)
    ensures Chain(c, iv, 0) == iv
  {}

  lemma XorBytesAt(a: seq<Byte>, b: seq<Byte>, i: nat)
    requires i < |a| == |b|
    ensures XorBytes(a, b)[i].bits == a[i].bits ^ b[i].bits
  {}

  /** The bytes of plaintext block j are those of the deciphered block j XORed with its chain block. */
  lemma {:induction false} CbcDecryptedBlock(c: seq<Byte>, n: nat, iv: Block16, d: BlockFunction, j: nat, i: nat)
    requires RoundUp(n) <= |c| && i < 16 && 16 * j + i < n
    ensures 16 * j + 16 <= |c|
    ensures CbcDecrypted(c, n, iv, d)[16 * j + i].bits == d(c[16 * j..16 * j + 16])[i].bits ^ Chain(c, iv, j)[i].bits
    decreases n
  {
    hide XorBytes, Chain;
    if j > 0 {
      CbcDecryptedBlock(c[16..], n - 16, c[..16], d, j - 1, i);
      ChainStep(c[..16], c[16..], iv, j);
      assert c == c[..16] + c[16..];
      var k := 16 * (j - 1);
      SliceDrop(c, 16, k, k + 16);
      assert CbcDecrypted(c, n, iv, d)[16 * j + i] == CbcDecrypted(c[16..], n - 16, c[..16], d)[k + i];
    } else {
      XorBytesAt(d(c[..16]), iv, i);
      ChainStart(c, iv);
      assert c[0..16] == c[..16];
    }
  }

  /** Encryption leaves in `ivec` the last block of ciphertext, if there is one. */
  lemma {:induction false} EncryptedIvIsLast(p: seq<Byte>, iv: Block16, e: BlockFunction)
    ensures EncryptedIv(p, iv, e) == Chain(CbcEncrypted(p, iv, e), iv, RoundUp(|p|) / 16)
    decreases |p|
  {
    hide XorBytes, XorShort, Chain;
    var c := CbcEncrypted(p, iv, e);
    if |p| >= 16 {
      var block := e(XorBytes(p[..16], iv));
      EncryptedIvIsLast(p[16..], block, e);
      ChainStep(block, CbcEncrypted(p[16..], block, e), iv, RoundUp(|p|) / 16);
    } else if |p| > 0 {
      ChainStep(c, [], iv, 1);
      ChainStart([], c);
      assert c + [] == c;
    } else {
      ChainStart(c, iv);
    }
  }

  /** Decryption leaves the last block of ciphertext, or after a short block its deciphered form. */
  lemma {:induction false} DecryptedIvIsLast(c: seq<Byte>, n: nat, iv: Block16, d: BlockFunction)
    requires RoundUp(n) <= |c|
    ensures n % 16 == 0 ==> DecryptedIv(c, n, iv, d) == Chain(c, iv, n / 16)
    ensures n % 16 != 0 ==> DecryptedIv(c, n, iv, d) == d(Chain(c, iv, n / 16 + 1))
    decreases n
  {
    hide Chain;
    if n >= 16 {
      DecryptedIvIsLast(c[16..], n - 16, c[..16], d);
      ChainStep(c[..16], c[16..], iv, n / 16);
      if n % 16 != 0 {
        ChainStep(c[..16], c[16..], iv, n / 16 + 1);
      }
      assert c == c[..16] + c[16..];
    } else if n > 0 {
      ChainStep(c[..16], c[16..], iv, 1);
      ChainStart(c[16..], c[..16]);
      assert c == c[..16] + c[16..];
    } else {
      ChainStart(c, iv);
    }
  }

  // ---- Round trip ------------------------------------------------------------------------------------

  lemma XorBytesCancel(a: seq<Byte>, k: seq<Byte>)
    requires |a| == |k|
    ensures XorBytes(XorBytes(a, k), k) == a
  {
    hide Xor;
    forall i | 0 <= i < |a|
      ensures XorBytes(XorBytes(a, k), k)[i] == a[i]
    {
      XorCancel(a[i], k[i]);
    }
  }

  lemma XorShortCancel(a: seq<Byte>, k: seq<Byte>)
    requires |a| <= |k|
    ensures XorBytes(XorShort(a, k), k)[..|a|] == a
  {
    hide Xor;
    forall i | 0 <= i < |a|
      ensures XorBytes(XorShort(a, k), k)[i] == a[i]
    {
      XorCancel(a[i], k[i]);
    }
  }

  ghost predicate Inverts(d: BlockFunction, e: BlockFunction) {
    forall s: Block16 :: d(e(s)) == s
  }

  /** The schedules that aes.c makes of one key give a cipher and its inverse. */
  lemma AesInverts(userKey: seq<Byte>, bits: int, ew: seq<Word>, dw: seq<Word>, w: seq<Word>)
    requires ScheduleOf(ew, userKey, bits) && ScheduleOf(w, userKey, bits)
    requires DecryptionSchedule(dw, w, RoundsFor(bits))
    ensures Inverts(Decryptor(dw, RoundsFor(bits)), Encryptor(ew, RoundsFor(bits)))
  {
    hide EncryptBytes, DecryptBytes, RoundKey;
    var nr := RoundsFor(bits);
    forall s: Block16
      ensures Decryptor(dw, nr)(Encryptor(ew, nr)(s)) == s
    {
      DecryptInvertsEncrypt(userKey, bits, ew, dw, w, s);
    }
  }

  /** For every length, decryption recovers what encryption was given. */
  lemma {:induction false} CbcRoundTrip(p: seq<Byte>, iv: Block16, e: BlockFunction, d: BlockFunction)
    requires Inverts(d, e)
    ensures CbcDecrypted(CbcEncrypted(p, iv, e), |p|, iv, d) == p
    decreases |p|
  {
    hide XorBytes, XorShort;
    var c := CbcEncrypted(p, iv, e);
    if |p| >= 16 {
      var block := e(XorBytes(p[..16], iv));
      assert c[..16] == block;
      assert c[16..] == CbcEncrypted(p[16..], block, e);
      XorBytesCancel(p[..16], iv);
      CbcRoundTrip(p[16..], block, e, d);
      assert p == p[..16] + p[16..];
    } else if |p| > 0 {
      assert c[..16] == c;
      XorShortCancel(p, iv);
    }
  }

  /**
    Both directions leave the same ivec after a whole number of blocks; after a short last block,
    encryption leaves that block's ciphertext and decryption its deciphered form.
   */
  lemma CbcIv(p: seq<Byte>, iv: Block16, e: BlockFunction, d: BlockFunction)
    ensures DecryptedIv(CbcEncrypted(p, iv, e), |p|, iv, d) ==
            if |p| % 16 == 0 then EncryptedIv(p, iv, e) else d(EncryptedIv(p, iv, e))
  {
    hide CbcEncrypted, EncryptedIv, DecryptedIv, Chain;
    EncryptedIvIsLast(p, iv, e);
    DecryptedIvIsLast(CbcEncrypted(p, iv, e), |p|, iv, d);
  }

  /** So the two are the same exactly after whole blocks, or where the block function fixes the last one. */
  lemma CbcIvSame(p: seq<Byte>, iv: Block16, e: BlockFunction, d: BlockFunction)
    ensures DecryptedIv(CbcEncrypted(p, iv, e), |p|, iv, d) == EncryptedIv(p, iv, e) <==>
              |p| % 16 == 0 || d(EncryptedIv(p, iv, e)) == EncryptedIv(p, iv, e)
  {
    CbcIv(p, iv, e, d);
  }

  /** Only the whole blocks that hold the ciphertext matter to decryption. */
  lemma {:induction false} CbcDecryptedPrefix(a: seq<Byte>, b: seq<Byte>, n: nat, iv: Block16, d: BlockFunction)
    requires RoundUp(n) <= |a| && RoundUp(n) <= |b| && a[..RoundUp(n)] == b[..RoundUp(n)]
    ensures CbcDecrypted(a, n, iv, d) == CbcDecrypted(b, n, iv, d)
    decreases n
  {
    hide XorBytes;
    if n > 0 {
      assert a[..16] == a[..RoundUp(n)][..16] == b[..RoundUp(n)][..16] == b[..16];
    }
    if n >= 16 {
      var r := RoundUp(n - 16);
      assert r == RoundUp(n) - 16;
      assert a[16..][..r] == a[..RoundUp(n)][16..] == b[..RoundUp(n)][16..] == b[16..][..r];
      CbcDecryptedPrefix(a[16..], b[16..], n - 16, a[..16], d);
    }
  }

  // ---- AES_cbc_encrypt -------------------------------------------------------------------------------

  lemma RoundUpStep(pos: nat, length: nat)
    requires pos % 16 == 0 && pos < length
    ensures pos + 16 <= RoundUp(length)
    ensures pos + 16 > length ==> RoundUp(length) == pos + 16
  {}

  /** memcpy of one block. */
  method CopyBlock(src: array<Byte>, at: nat, dst: array<Byte>)
    requires at + 16 <= src.Length && dst.Length == 16
    modifies dst
    ensures dst[..] == old(src[at..at + 16])
  {
    forall i | 0 <= i < 16 {
      dst[i] := src[at + i];
    }
  }

  /** tmp := in ^ ivec on the first n bytes and ivec on the others. */
  method XorIn(inp: array<Byte>, at: nat, n: nat, ivec: array<Byte>, tmp: array<Byte>)
    requires n <= 16 && at + n <= inp.Length && ivec.Length == 16 && tmp.Length == 16
    requires tmp != inp && tmp != ivec
    modifies tmp
    ensures tmp[..] == XorShort(inp[at..at + n], ivec[..])
    ensures n == 16 ==> tmp[..] == XorBytes(inp[at..at + 16], ivec[..])
  {
    hide Xor;
    forall i | 0 <= i < 16 {
      tmp[i] := if i < n then Xor(inp[at + i], ivec[i]) else ivec[i];
    }
  }

  lemma StoredParts(before: seq<Byte>, after: seq<Byte>, at: nat, block: seq<Byte>)
    requires |block| == 16 && Stored(before, after, at, block)
    ensures after[at..at + 16] == block && after[..at + 16] == before[..at] + block
    ensures after[at + 16..] == before[at + 16..]
  {}

  /** After pos bytes: the output so far and the current ivec determine the rest of the result. */
  ghost predicate EncryptedSoFar(p: seq<Byte>, iv: Block16, e: BlockFunction, pos: nat, out: seq<Byte>,
                                 chain: Block16) {
    && pos <= |p| && pos % 16 == 0
    && CbcEncrypted(p, iv, e) == out + CbcEncrypted(p[pos..], chain, e)
    && EncryptedIv(p, iv, e) == EncryptedIv(p[pos..], chain, e)
  }

  lemma EncryptedSoFarStep(p: seq<Byte>, iv: Block16, e: BlockFunction, pos: nat, out: seq<Byte>, chain: Block16)
    requires EncryptedSoFar(p, iv, e, pos, out, chain) && pos + 16 <= |p|
    ensures var block := e(XorBytes(p[pos..pos + 16], chain));
            EncryptedSoFar(p, iv, e, pos + 16, out + block, block)
  {
    hide XorBytes;
    assert p[pos..][..16] == p[pos..pos + 16] && p[pos..][16..] == p[pos + 16..];
  }

  lemma EncryptedSoFarEnd(p: seq<Byte>, iv: Block16, e: BlockFunction, pos: nat, out: seq<Byte>, chain: Block16)
    requires EncryptedSoFar(p, iv, e, pos, out, chain) && |p| < pos + 16
    ensures pos == |p| ==> CbcEncrypted(p, iv, e) == out && EncryptedIv(p, iv, e) == chain
    ensures pos < |p| ==> var block := e(XorShort(p[pos..], chain));
                          CbcEncrypted(p, iv, e) == out + block && EncryptedIv(p, iv, e) == block
  {
    hide XorShort;
  }

  /** One block: XOR with ivec, encrypt, and keep the result as the next ivec. */
  method EncryptNext(inp: array<Byte>, out: array<Byte>, pos: nat, n: nat, key: AesKey, ivec: array<Byte>)
    requires key.Valid() && ivec.Length == 16 && ivec != inp && ivec != out
    requires 0 < n <= 16 && pos + n <= inp.Length && pos + 16 <= out.Length
    modifies out, ivec
    ensures key.rdKey[..] == old(key.rdKey[..])
    ensures ivec[..] == Encryptor(key.rdKey[..], key.rounds)(XorShort(old(inp[pos..pos + n]), old(ivec[..])))
    ensures out[..pos + 16] == old(out[..pos]) + ivec[..] && out[pos + 16..] == old(out[pos + 16..])
  {
    hide EncryptBytes, XorShort, XorBytes, Stored;
    ghost var rk := key.rdKey[..];
    var tmp := new Byte[16](_ => ZERO);
    XorIn(inp, pos, n, ivec, tmp);
    ghost var before, x := out[..], tmp[..];
    assert tmp[0..16] == x;
    Encrypt(tmp, 0, out, pos, key);
    StoredParts(before, out[..], pos, EncryptBytes(x, rk, key.rounds));
    CopyBlock(out, pos, ivec);
    assert key.rdKey[..] == rk;
  }

  lemma XorShortFull(a: seq<Byte>, iv: seq<Byte>)
    requires |a| == |iv|
    ensures XorShort(a, iv) == XorBytes(a, iv)
  {
    hide XorBytes;
    assert iv[..|a|] == iv;
  }

  /** The branch of AES_cbc_encrypt for enc != 0; `inp` and `out` may be the same array. */
  method CbcEncrypt(inp: array<Byte>, out: array<Byte>, length: nat, key: AesKey, ivec: array<Byte>)
    requires key.Valid() && ivec.Length == 16 && ivec != inp && ivec != out
    requires length <= inp.Length && RoundUp(length) <= out.Length
    modifies out, ivec
    ensures key.rdKey[..] == old(key.rdKey[..])
    ensures var e := Encryptor(key.rdKey[..], key.rounds);
            && out[..RoundUp(length)] == CbcEncrypted(old(inp[..length]), old(ivec[..]), e)
            && ivec[..] == EncryptedIv(old(inp[..length]), old(ivec[..]), e)
    ensures out[RoundUp(length)..] == old(out[RoundUp(length)..])
  {
    hide Encryptor, XorBytes, XorShort, EncryptedSoFar, CbcEncrypted, EncryptedIv, RoundUp;
    ghost var p, iv, tail := inp[..length], ivec[..], out[RoundUp(length)..];
    ghost var e := Encryptor(key.rdKey[..], key.rounds);
    var pos := 0;
    EncryptedSoFarStart(p, iv, e);
    while length - pos >= 16
      invariant pos % 16 == 0 && pos <= length && pos <= RoundUp(length)
      invariant key.rdKey[..] == old(key.rdKey[..])
      invariant forall i :: pos <= i < length ==> inp[i] == p[i]
      invariant out[RoundUp(length)..] == tail
      invariant EncryptedSoFar(p, iv, e, pos, out[..pos], ivec[..])
    {
      RoundUpStep(pos, length);
      assert inp[pos..pos + 16] == p[pos..pos + 16];
      XorShortFull(p[pos..pos + 16], ivec[..]);
      EncryptedSoFarStep(p, iv, e, pos, out[..pos], ivec[..]);
      ghost var later := out[pos + 16..];
      EncryptNext(inp, out, pos, 16, key, ivec);
      assert forall i :: pos + 16 <= i < out.Length ==> out[i] == later[i - pos - 16];
      pos := pos + 16;
    }
    EncryptedSoFarEnd(p, iv, e, pos, out[..pos], ivec[..]);
    if pos < length {
      RoundUpStep(pos, length);
      assert inp[pos..length] == p[pos..];
      EncryptNext(inp, out, pos, length - pos, key, ivec);
    }
  }

  lemma EncryptedSoFarStart(p: seq<Byte>, iv: Block16, e: BlockFunction)
    ensures EncryptedSoFar(p, iv, e, 0, [], iv)
  {
    assert p[0..] == p;
  }

  // ---- The branch for enc == 0 -------------------------------------------------------------------------

  ghost predicate DecryptedSoFar(c: seq<Byte>, n: nat, iv: Block16, d: BlockFunction, pos: nat, out: seq<Byte>,
                                 chain: Block16)
  {
    && pos <= n && pos % 16 == 0 && RoundUp(n) <= |c|
    && CbcDecrypted(c, n, iv, d) == out + CbcDecrypted(c[pos..], n - pos, chain, d)
    && DecryptedIv(c, n, iv, d) == DecryptedIv(c[pos..], n - pos, chain, d)
  }

  lemma DecryptedSoFarStart(c: seq<Byte>, n: nat, iv: Block16, d: BlockFunction)
    requires RoundUp(n) <= |c|
    ensures DecryptedSoFar(c, n, iv, d, 0, [], iv)
  {
    assert c[0..] == c;
  }

  lemma DecryptedSoFarStep(c: seq<Byte>, n: nat, iv: Block16, d: BlockFunction, pos: nat, out: seq<Byte>,
                           chain: Block16)
    requires DecryptedSoFar(c, n, iv, d, pos, out, chain) && pos + 16 <= n
    ensures pos + 16 <= |c|
    ensures var block := c[pos..pos + 16];
            DecryptedSoFar(c, n, iv, d, pos + 16, out + XorBytes(d(block), chain), block)
  {
    hide XorBytes;
    assert c[pos..][..16] == c[pos..pos + 16] && c[pos..][16..] == c[pos + 16..];
  }

  lemma DecryptedSoFarEnd(c: seq<Byte>, n: nat, iv: Block16, d: BlockFunction, pos: nat, out: seq<Byte>,
                          chain: Block16)
    requires DecryptedSoFar(c, n, iv, d, pos, out, chain) && n < pos + 16
    ensures pos == n ==> CbcDecrypted(c, n, iv, d) == out && DecryptedIv(c, n, iv, d) == chain
    ensures pos < n ==> pos + 16 <= |c| && var x := d(c[pos..pos + 16]);
                        && CbcDecrypted(c, n, iv, d) == out + XorBytes(x, chain)[..n - pos]
                        && DecryptedIv(c, n, iv, d) == x
  {
    hide XorBytes;
    if pos < n {
      assert c[pos..][..16] == c[pos..pos + 16];
    }
  }

  /** out := tmp ^ ivec on n bytes at pos. */
  method XorOut(tmp: array<Byte>, ivec: array<Byte>, out: array<Byte>, pos: nat, n: nat)
    requires n <= 16 && pos + n <= out.Length && ivec.Length == 16 && tmp.Length == 16
    requires out != tmp && out != ivec
    modifies out
    ensures out[..pos + n] == old(out[..pos]) + XorBytes(tmp[..], ivec[..])[..n]
    ensures out[pos + n..] == old(out[pos + n..])
  {
    hide Xor;
    forall i | 0 <= i < n {
      out[pos + i] := Xor(tmp[i], ivec[i]);
    }
  }

  /** One block: decrypt, XOR with ivec into n bytes of out, and set the next ivec. */
  method DecryptNext(inp: array<Byte>, out: array<Byte>, pos: nat, n: nat, key: AesKey, ivec: array<Byte>)
    requires key.Valid() && ivec.Length == 16 && ivec != inp && ivec != out
    requires 0 < n <= 16 && pos + 16 <= inp.Length && pos + n <= out.Length
    modifies out, ivec
    ensures key.rdKey[..] == old(key.rdKey[..])
    ensures var x := Decryptor(key.rdKey[..], key.rounds)(old(inp[pos..pos + 16]));
            && ivec[..] == (if n == 16 then old(inp[pos..pos + 16]) else x)
            && out[..pos + n] == old(out[..pos]) + XorBytes(x, old(ivec[..]))[..n]
    ensures out[pos + n..] == old(out[pos + n..])
  {
    hide DecryptBytes, XorBytes, Stored;
    ghost var rk := key.rdKey[..];
    var tmp := new Byte[16](_ => ZERO);
    var saved := new Byte[16](_ => ZERO);
    CopyBlock(inp, pos, saved);
    CopyBlock(inp, pos, tmp);
    ghost var c := saved[..];
    assert tmp[0..16] == c;
    ghost var before := tmp[..];
    Decrypt(tmp, 0, tmp, 0, key);
    StoredParts(before, tmp[..], 0, DecryptBytes(c, rk, key.rounds));
    assert tmp[..] == tmp[0..16];
    XorOut(tmp, ivec, out, pos, n);
    assert saved[0..16] == c && tmp[0..16] == tmp[..];
    if n == 16 {
      CopyBlock(saved, 0, ivec);
    } else {
      CopyBlock(tmp, 0, ivec);
    }
    assert key.rdKey[..] == rk;
  }

  /** The branch of AES_cbc_encrypt for enc == 0; `inp` and `out` may be the same array. */
  method CbcDecrypt(inp: array<Byte>, out: array<Byte>, length: nat, key: AesKey, ivec: array<Byte>)
    requires key.Valid() && ivec.Length == 16 && ivec != inp && ivec != out
    requires RoundUp(length) <= inp.Length && length <= out.Length
    modifies out, ivec
    ensures key.rdKey[..] == old(key.rdKey[..])
    ensures var d := Decryptor(key.rdKey[..], key.rounds);
            && out[..length] == CbcDecrypted(old(inp[..]), length, old(ivec[..]), d)
            && ivec[..] == DecryptedIv(old(inp[..]), length, old(ivec[..]), d)
    ensures out[length..] == old(out[length..])
  {
    hide Decryptor, XorBytes, DecryptedSoFar, CbcDecrypted, DecryptedIv, RoundUp;
    ghost var c, iv, tail := inp[..], ivec[..], out[length..];
    ghost var d := Decryptor(key.rdKey[..], key.rounds);
    var pos := 0;
    DecryptedSoFarStart(c, length, iv, d);
    while length - pos >= 16
      invariant pos % 16 == 0 && pos <= length
      invariant key.rdKey[..] == old(key.rdKey[..])
      invariant forall i :: pos <= i < |c| ==> inp[i] == c[i]
      invariant out[length..] == tail
      invariant DecryptedSoFar(c, length, iv, d, pos, out[..pos], ivec[..])
    {
      DecryptedSoFarStep(c, length, iv, d, pos, out[..pos], ivec[..]);
      assert inp[pos..pos + 16] == c[pos..pos + 16];
      ghost var later, x := out[pos + 16..], XorBytes(d(c[pos..pos + 16]), ivec[..]);
      assert x[..16] == x;
      DecryptNext(inp, out, pos, 16, key, ivec);
      assert forall i :: pos + 16 <= i < out.Length ==> out[i] == later[i - pos - 16];
      pos := pos + 16;
    }
    DecryptedSoFarEnd(c, length, iv, d, pos, out[..pos], ivec[..]);
    if pos < length {
      assert inp[pos..pos + 16] == c[pos..pos + 16];
      DecryptNext(inp, out, pos, length - pos, key, ivec);
    }
  }

  /**
    Any key of a supported size, any buffer: expanding the key both ways, encrypting `length` bytes
    in place and decrypting them in place from the same ivec gives the bytes back.
   */
  method ThereAndBack(userKey: array<Byte>, bits: int, ek: AesKey, dk: AesKey, buf: array<Byte>, length: nat,
                      ivec: array<Byte>, ivec2: array<Byte>)
    requires KeySize(bits) && bits / 8 <= userKey.Length
    requires ek != dk && ek.rdKey != dk.rdKey && ek.rdKey.Length == dk.rdKey.Length == 4 * (AES_MAXNR + 1)
    requires ivec.Length == ivec2.Length == 16 && ivec[..] == ivec2[..] && ivec != ivec2
    requires buf != ivec && buf != ivec2 && userKey != buf && userKey != ivec && RoundUp(length) <= buf.Length
    modifies ek, dk, ek.rdKey, dk.rdKey, buf, ivec, ivec2
    ensures buf[..length] == old(buf[..length])
    ensures buf[RoundUp(length)..] == old(buf[RoundUp(length)..])
  {
    hide ScheduleOf, DecryptionSchedule, Encryptor, Decryptor, CbcEncrypted, CbcDecrypted, Inverts, RoundUp;
    hide DecryptedIv, EncryptedIv;
    RoundUpAtLeast(length);
    ghost var plain, iv, n := buf[..length], ivec[..], RoundUp(length);
    ghost var tail := buf[n..];
    var status := SetEncryptKey(userKey, bits, ek);
    ghost var w;
    status, w := SetDecryptKey(userKey, bits, dk);
    ghost var ew, dw := ek.rdKey[..], dk.rdKey[..];
    ScheduleMade(ew, userKey[..], bits);
    AesInverts(userKey[..], bits, ew, dw, w);
    ghost var e, d := Encryptor(ew, ek.rounds), Decryptor(dw, dk.rounds);
    CbcEncrypt(buf, buf, length, ek, ivec);
    assert buf[..n] == CbcEncrypted(plain, iv, e);
    assert buf[n..] == tail;
    ghost var cipher := buf[..];
    assert cipher[..n] == buf[..n];
    CbcDecrypt(buf, buf, length, dk, ivec2);
    CbcDecryptedPrefix(cipher, CbcEncrypted(plain, iv, e), length, iv, d);
    CbcRoundTrip(plain, iv, e, d);
    assert buf[n..] == buf[length..][n - length..];
  }

  lemma ScheduleMade(w: seq<Word>, userKey: seq<Byte>, bits: int)
    requires KeySize(bits) && bits / 8 <= |userKey| && EncryptionSchedule(w, userKey, bits / 32, RoundsFor(bits))
    ensures ScheduleOf(w, userKey, bits)
  {}

  lemma RoundUpAtLeast(n: nat)
    ensures n <= RoundUp(n)
  {}
}
