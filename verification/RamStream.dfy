/**
  The byte stream between ram_save_live and ram_load: how records are written and read.
 */
module RamStream {
  import opened Base
  import opened RamList

  const FLAG_COMPRESS: nat := 0x02
  const FLAG_MEM_SIZE: nat := 0x04
  const FLAG_PAGE: nat := 0x08
  const FLAG_EOS: nat := 0x10
  const FLAG_CONTINUE: nat := 0x20

  // ---- qemu_put_be64 and qemu_get_be64 ---------------------------------------------------------------

  function Power256(n: nat): nat {
    if n == 0 then 1 else 256 * Power256(n - 1)
  }

  /** The last n base-256 digits of v, most significant first. */
  function Digits(n: nat, v: nat): (s: seq<Octet>)
    ensures |s| == n
  {
    if n == 0 then [] else Digits(n - 1, v / 256) + [v % 256]
  }

  function Value(s: seq<Octet>): nat {
    if s == [] then 0 else Value(s[..|s| - 1]) * 256 + s[|s| - 1]
  }

  lemma {:induction false} ValueDigits(n: nat, v: nat)
    requires v < Power256(n)
    ensures Value(Digits(n, v)) == v
  {
    if n > 0 {
      var d := Digits(n - 1, v / 256);
      assert v / 256 < Power256(n - 1);
      ValueDigits(n - 1, v / 256);
      assert Digits(n, v)[..n - 1] == d;
    }
  }

  /** Octet i of n stands for the power n - 1 - i of 256. */
  lemma {:induction false} DigitAt(n: nat, v: nat, i: nat)
    requires i < n
    ensures Power256(n - 1 - i) > 0 && Digits(n, v)[i] == v / Power256(n - 1 - i) % 256
  {
    if i == n - 1 {
      assert Power256(0) == 1;
    } else {
      DigitAt(n - 1, v / 256, i);
      DivideTwice(v, Power256(n - 2 - i));
    }
  }

  lemma DivideTwice(v: nat, d: nat)
    requires d > 0
    ensures v / 256 / d == v / (256 * d)
  {
    var q, r := v / 256, v % 256;
    var q1, r1 := q / d, q % d;
    assert v == 256 * q + r && q == d * q1 + r1;
    assert v == (256 * d) * q1 + (256 * r1 + r);
    assert 256 * r1 + r < 256 * d;
    QuotientIs(v, q1, 256 * r1 + r, 256 * d);
  }

  function Be64(v: nat): (s: seq<Octet>)
    ensures |s| == 8
  {
    Digits(8, v)
  }

  lemma Be64RoundTrip(v: nat)
    requires v < TWO64
    ensures Value(Be64(v)) == v
  {
    assert Power256(2) == 0x1_0000;
    assert Power256(4) == 0x1_0000_0000;
    assert Power256(6) == 0x1_0000_0000_0000;
    assert Power256(8) == TWO64;
    ValueDigits(8, v);
  }

  lemma {:induction false} DigitsValue(s: seq<Octet>)
    ensures Value(s) < Power256(|s|) && Digits(|s|, Value(s)) == s
  {
    if s != [] {
      var front := s[..|s| - 1];
      DigitsValue(front);
      assert Value(s) / 256 == Value(front) && Value(s) % 256 == s[|s| - 1];
      assert s == front + [s[|s| - 1]];
    }
  }

  // ---- Headers: a page-aligned number and flags in its low bits ------------------------------------------

  predicate HasFlag(flags: nat, flag: nat)
    requires flag > 0
  {
    flags / flag % 2 == 1
  }

  /**
    The code joins number and flags with `|` and takes them apart with `& TARGET_PAGE_MASK`; on a
    page-aligned number that is addition, division and remainder.
   */
  lemma HeaderBits(x: bv64, f: bv64)
    requires x & 0xfff == 0 && f < 0x1000
    ensures x | f == x + f
    ensures (x | f) & 0xfff == f && (x | f) & 0xffff_ffff_ffff_f000 == x
  {}

  // ---- Records written by the saver -----------------------------------------------------------------------

  predicate IsDup(page: Page) {
    forall k :: 0 <= k < PAGE ==> page[k] == page[0]
  }

  /** A record of ram_save_block for one page: header, block name unless continued, contents. */
  function PageRecord(cont: bool, idstr: seq<Octet>, offset: nat, page: Page): seq<Octet>
    requires |idstr| < 256
  {
    Be64(offset + (if cont then FLAG_CONTINUE else 0) + (if IsDup(page) then FLAG_COMPRESS else FLAG_PAGE)) +
    (if cont then [] else [|idstr|] + idstr) +
    (if IsDup(page) then [page[0]] else page)
  }

  function SizeList(blocks: seq<RamBlock>): seq<Octet>
    requires forall b :: 0 <= b < |blocks| ==> |blocks[b].idstr| < 256
  {
    if blocks == [] then []
    else [|blocks[0].idstr|] + blocks[0].idstr + Be64(blocks[0].Length()) + SizeList(blocks[1..])
  }

  /** The record that opens stage 1: the size of RAM and the list of its blocks. */
  function SizesRecord(blocks: seq<RamBlock>): seq<Octet>
    requires forall b :: 0 <= b < |blocks| ==> |blocks[b].idstr| < 256
  {
    Be64(TotalBytes(blocks) + FLAG_MEM_SIZE) + SizeList(blocks)
  }

  function EosRecord(): seq<Octet> {
    Be64(FLAG_EOS)
  }
}
