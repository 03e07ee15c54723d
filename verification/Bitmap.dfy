/**
  bitmap.c: setting and clearing ranges of bits, and the search for an aligned run of clear bits.
 */
module Bitmap {
  import opened Base
  import opened Bitops

  /** BITMAP_LAST_WORD_MASK */
  function LastWordMask(nbits: nat): Word {
    if nbits % BITS_PER_LONG != 0 then LowBits(nbits % BITS_PER_LONG) else ONES
  }

  // ---- bitmap_set and bitmap_clear --------------------------------------------------------------------------

  function Masked(w: Word, mask: Word, v: bool): Word {
    if v then Or(w, mask) else And(w, Not(mask))
  }

  lemma MaskedBits(w: Word, mask: Word, v: bool)
    ensures forall k :: 0 <= k < BITS_PER_LONG ==> Masked(w, mask, v)[k] == if mask[k] then v else w[k]
  {}

  /** The words hold the old bits, except that those from `start` up to `done` are v. */
  ghost predicate Written(before: seq<Word>, after: seq<Word>, start: nat, done: nat, v: bool) {
    && |after| == |before|
    && forall n :: 0 <= n < BITS_PER_LONG * |before| ==>
         Bit(after, n) == if start <= n < done then v else Bit(before, n)
  }

  /** Writing under a mask to word p continues what has been written. */
  lemma WrittenMore(before: seq<Word>, after: seq<Word>, start: nat, done: nat, p: nat, mask: Word, next: nat, v: bool)
    requires Written(before, after, start, done, v) && p < |before|
    requires BITS_PER_LONG * p <= done <= next <= BITS_PER_LONG * (p + 1)
    requires forall k :: 0 <= k < BITS_PER_LONG ==>
               mask[k] == (done - BITS_PER_LONG * p <= k < next - BITS_PER_LONG * p)
    requires start <= done
    ensures Written(before, after[p := Masked(after[p], mask, v)], start, next, v)
  {
    var changed := after[p := Masked(after[p], mask, v)];
    MaskedBits(after[p], mask, v);
    forall n | 0 <= n < BITS_PER_LONG * |before|
      ensures Bit(changed, n) == if start <= n < next then v else Bit(before, n)
    {
      assert Bit(after, n) == if start <= n < done then v else Bit(before, n);
      if n / BITS_PER_LONG == p {
        WordBits(after, p, n % BITS_PER_LONG);
        WordBits(changed, p, n % BITS_PER_LONG);
      }
    }
  }

  /** bitmap_set (v) and bitmap_clear (!v): the bits of the range change and no others. */
  method WriteRange(words: array<Word>, start: nat, nr: nat, v: bool)
    requires start + nr <= BITS_PER_LONG * words.Length
    modifies words
    ensures Written(old(words[..]), words[..], start, start + nr, v)
  {
    hide Written, Bit, Masked;
    var p := start / BITS_PER_LONG;
    var size := start + nr;
    var left: int := nr;
    var bits: int := BITS_PER_LONG - start % BITS_PER_LONG;
    var mask := Shl(ONES, start % BITS_PER_LONG);
    WrittenNothing(words[..], start, v);
    while left - bits >= 0
      invariant 0 <= left <= nr && 0 < bits <= BITS_PER_LONG && 0 <= p
      invariant size - left + bits == BITS_PER_LONG * (p + 1)
      invariant forall k :: 0 <= k < BITS_PER_LONG ==> mask[k] == (BITS_PER_LONG - bits <= k)
      invariant Written(old(words[..]), words[..], start, size - left, v)
    {
      ghost var earlier := words[..];
      WrittenMore(old(words[..]), earlier, start, size - left, p, mask, BITS_PER_LONG * (p + 1), v);
      words[p] := Masked(words[p], mask, v);
      assert words[..] == earlier[p := Masked(earlier[p], mask, v)];
      left := left - bits;
      bits, mask := BITS_PER_LONG, ONES;
      p := p + 1;
    }
    if left != 0 {
      mask := And(mask, LastWordMask(size));
      ghost var earlier := words[..];
      assert size % BITS_PER_LONG == size - BITS_PER_LONG * p;
      WrittenMore(old(words[..]), earlier, start, size - left, p, mask, size, v);
      words[p] := Masked(words[p], mask, v);
      assert words[..] == earlier[p := Masked(earlier[p], mask, v)];
    }
  }

  lemma WrittenNothing(words: seq<Word>, start: nat, v: bool)
    ensures Written(words, words, start, start, v)
  {}

  /** Clearing a range that was set restores the bitmap exactly when the range was clear before. */
  lemma SetThenClear(a: seq<Word>, b: seq<Word>, c: seq<Word>, start: nat, end: nat)
    requires Written(a, b, start, end, true) && Written(b, c, start, end, false)
    requires end <= BITS_PER_LONG * |a|
    ensures (forall n :: 0 <= n < BITS_PER_LONG * |a| ==> Bit(c, n) == Bit(a, n)) <==>
            (forall n :: start <= n < end ==> !Bit(a, n))
  {
    hide Bit;
  }

  // ---- bitmap_find_next_zero_area -----------------------------------------------------------------------------

  /** ALIGN_MASK(x, align - 1): for a power of two, the next multiple of it. */
  function AlignUp(x: nat, align: nat): nat
    requires align > 0
  {
    (x + align - 1) / align * align
  }

  lemma AlignUpIsNext(x: nat, align: nat, s: nat)
    requires align > 0 && s % align == 0
    ensures x <= AlignUp(x, align) && AlignUp(x, align) % align == 0
    ensures x <= s ==> AlignUp(x, align) <= s
  {
    var q, t := (x + align - 1) / align, s / align;
    DivMul(x + align - 1, align);
    MulMod(q, align);
    DivMul(s, align);
    if q > t {
      MulOrder(t, q, align);
    } else {
      MulMonotone(q, t, align);
    }
  }

  /** The number that a word stands for. */
  ghost function Number(w: seq<bool>): nat {
    if w == [] then 0 else (if w[0] then 1 else 0) + 2 * Number(w[1..])
  }

  /** `w` with its first k bits cleared. */
  ghost function Cleared(w: seq<bool>, k: nat): (r: seq<bool>)
    ensures |r| == |w|
  {
    seq(|w|, i requires 0 <= i < |w| => i >= k && w[i])
  }

  lemma {:induction false} ClearedNothing(w: seq<bool>)
    ensures Cleared(w, 0) == w
  {}

  /** A number is its low k bits and 2^k times the rest; clearing k bits leaves the latter. */
  lemma {:induction false} ClearedNumber(w: seq<bool>, k: nat)
    requires k <= |w|
    ensures Number(w[..k]) < Pow2(k)
    ensures Number(w) == Number(w[..k]) + Number(w[k..]) * Pow2(k)
    ensures Number(Cleared(w, k)) == Number(w[k..]) * Pow2(k)
  {
    if k == 0 {
      ClearedNothing(w);
      assert w[0..] == w;
    } else {
      var t := w[1..];
      ClearedNumber(t, k - 1);
      assert Cleared(w, k)[1..] == Cleared(t, k - 1);
      assert w[..k][1..] == t[..k - 1] && w[k..] == t[k - 1..];
      Doubled(Number(w[k..]), Pow2(k - 1));
    }
  }

  lemma Doubled(n: nat, p: nat)
    ensures n * (2 * p) == 2 * (n * p)
  {}

  lemma {:induction false} LowNumber(n: nat, k: nat)
    requires k <= n
    ensures Number(seq(n, i requires 0 <= i => i < k)) == Pow2(k) - 1
  {
    var w := seq(n, i requires 0 <= i => i < k);
    if k > 0 {
      LowNumber(n - 1, k - 1);
      assert w[1..] == seq(n - 1, i requires 0 <= i => i < k - 1);
    } else if n > 0 {
      LowNumber(n - 1, 0);
      assert w[1..] == seq(n - 1, i requires 0 <= i => i < 0);
    }
  }

  /**
    ALIGN_MASK as the macro computes it, for the mask of a power of two: `sum` is the word of
    x + mask, which does not wrap around.
   */
  lemma AlignMaskIsAlignUp(x: nat, k: nat, sum: Word)
    requires k <= BITS_PER_LONG && Number(sum) == x + Number(LowBits(k))
    ensures Number(LowBits(k)) == Pow2(k) - 1
    ensures Number(And(sum, Not(LowBits(k)))) == AlignUp(x, Pow2(k))
  {
    assert LowBits(k) == seq(BITS_PER_LONG, i requires 0 <= i => i < k);
    LowNumber(BITS_PER_LONG, k);
    assert And(sum, Not(LowBits(k))) == Cleared(sum, k);
    ClearedNumber(sum, k);
    QuotientIs(Number(sum), Number(sum[k..]), Number(sum[..k]), Pow2(k));
  }

  lemma MulMod(q: nat, d: nat)
    requires d > 0
    ensures (q * d) % d == 0
  {
    var t := q * d / d;
    DivMul(q * d, d);
    if t < q {
      MulOrder(t, q, d);
    } else if q < t {
      MulOrder(q, t, d);
    }
  }

  /** An aligned run of nr clear bits at r, not before start. */
  ghost predicate IsArea(words: seq<Word>, size: nat, start: nat, nr: nat, align: nat, r: nat)
    requires size <= BITS_PER_LONG * |words| && align > 0
  {
    start <= r && r % align == 0 && r + nr <= size && forall n :: r <= n < r + nr ==> !Bit(words, n)
  }

  /** The leftmost such run, or a number above size exactly when there is none. */
  method FindNextZeroArea(words: seq<Word>, size: nat, start: nat, nr: nat, align: nat) returns (r: nat)
    requires size <= BITS_PER_LONG * |words| && nr > 0 && align > 0
    ensures r <= size ==> IsArea(words, size, start, nr, align, r)
    ensures forall s: nat :: IsArea(words, size, start, nr, align, s) ==> r <= s
    ensures r > size <==> forall s: nat :: !IsArea(words, size, start, nr, align, s)
  {
    hide Bit, NextBit, AlignUp;
    var from := start;
    while true
      invariant start <= from
      invariant forall s: nat :: IsArea(words, size, start, nr, align, s) ==> from <= s
      decreases size + 1 - from
    {
      var index := FindNextZeroBit(words, size, from);
      ghost var clear := index;
      NextBitIsFirst(words, size, from, false);
      index := AlignUp(index, align);
      forall s: nat | IsArea(words, size, start, nr, align, s)
        ensures index <= s
      {
        AreaNotBefore(words, size, start, nr, align, from, clear, s);
      }
      AlignUpIsNext(clear, align, 0);
      var end := index + nr;
      if end > size {
        return end;
      }
      var i := FindNextBit(words, end, index);
      NextBitIsFirst(words, end, index, true);
      if i >= end {
        return index;
      }
      forall s: nat | IsArea(words, size, start, nr, align, s)
        ensures i < s
      {
        AreaAfter(words, size, start, nr, align, index, i, s);
      }
      from := i + 1;
    }
  }

  /** A run that starts no earlier than `index` starts after any set bit found within nr bits of it. */
  lemma AreaAfter(words: seq<Word>, size: nat, start: nat, nr: nat, align: nat, index: nat, i: nat, s: nat)
    requires size <= BITS_PER_LONG * |words| && align > 0
    requires IsArea(words, size, start, nr, align, s) && index <= s && i < index + nr <= size && Bit(words, i)
    ensures i < s
  {}

  /** A run starts no earlier than the next clear bit, rounded up. */
  lemma AreaNotBefore(words: seq<Word>, size: nat, start: nat, nr: nat, align: nat, from: nat, clear: nat, s: nat)
    requires size <= BITS_PER_LONG * |words| && nr > 0 && align > 0
    requires IsArea(words, size, start, nr, align, s) && from <= s
    requires clear <= size && forall n :: from <= n < clear ==> Bit(words, n) != false
    ensures AlignUp(clear, align) <= s
  {
    hide Bit, AlignUp;
    assert !Bit(words, s);
    AlignUpIsNext(clear, align, s);
  }
}
