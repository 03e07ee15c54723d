/**
  Searching bitmaps word by word: bitops.h and bitops.c with 64-bit words.

  A word is its 64 bits, least significant first, and the operators of C are given bit by bit.
 */
module Bitops {

  const BITS_PER_LONG: nat := 64

  type Word = w: seq<bool> | |w| == BITS_PER_LONG witness seq(BITS_PER_LONG, _ => false)

  function And(a: Word, b: Word): Word { seq(BITS_PER_LONG, k requires 0 <= k < BITS_PER_LONG => a[k] && b[k]) }

  function Or(a: Word, b: Word): Word { seq(BITS_PER_LONG, k requires 0 <= k < BITS_PER_LONG => a[k] || b[k]) }

  function Not(a: Word): Word { seq(BITS_PER_LONG, k requires 0 <= k < BITS_PER_LONG => !a[k]) }

  function Shl(a: Word, n: nat): Word {
    seq(BITS_PER_LONG, k requires 0 <= k < BITS_PER_LONG => k >= n && a[k - n])
  }

  function Shr(a: Word, n: nat): Word {
    seq(BITS_PER_LONG, k requires 0 <= k < BITS_PER_LONG => k + n < BITS_PER_LONG && a[k + n])
  }

  /** A word with the low n bits set, such as 0xff for n = 8. */
  function LowBits(n: nat): Word {
    seq(BITS_PER_LONG, k requires 0 <= k < BITS_PER_LONG => k < n)
  }

  const ZERO: Word := LowBits(0)
  const ONES: Word := LowBits(BITS_PER_LONG)

  // ---- First and last set bit of a word ------------------------------------------------------------------

  ghost predicate IsFirst(w: Word, r: nat) {
    r < BITS_PER_LONG && w[r] && forall k :: 0 <= k < r ==> !w[k]
  }

  ghost predicate IsLast(w: Word, r: nat) {
    r < BITS_PER_LONG && w[r] && forall k :: r < k < BITS_PER_LONG ==> !w[k]
  }

  /** What the halving has established: the first set bit is within `width` bits from `num` on. */
  ghost predicate Narrowed(given: Word, word: Word, num: nat, width: nat) {
    && num + width <= BITS_PER_LONG
    && word == Shr(given, num)
    && (forall k :: 0 <= k < num ==> !given[k])
    && (exists k :: 0 <= k < width && word[k])
  }

  /** One halving step of bitops_ffsl. */
  method Halve(ghost given: Word, word: Word, num: nat, half: nat) returns (word': Word, num': nat)
    requires half > 0 && Narrowed(given, word, num, 2 * half)
    ensures Narrowed(given, word', num', half)
  {
    if And(word, LowBits(half)) == ZERO {
      forall k | 0 <= k < half
        ensures !word[k]
      {
        assert And(word, LowBits(half))[k] == ZERO[k];
      }
      num', word' := num + half, Shr(word, half);
      ghost var k :| 0 <= k < 2 * half && word[k];
      assert word'[k - half];
      assert word' == Shr(given, num + half);
      assert forall j :: num <= j < num + half ==> given[j] == word[j - num];
    } else {
      num', word' := num, word;
      ghost var k :| 0 <= k < BITS_PER_LONG && And(word, LowBits(half))[k];
      assert word[k] && k < half;
    }
  }

  /** bitops_ffsl: the lowest set bit. */
  method Ffsl(given: Word) returns (r: nat)
    requires given != ZERO
    ensures IsFirst(given, r)
  {
    hide Narrowed;
    NarrowedStart(given);
    var word, num := Halve(given, given, 0, 32);
    word, num := Halve(given, word, num, 16);
    word, num := Halve(given, word, num, 8);
    word, num := Halve(given, word, num, 4);
    word, num := Halve(given, word, num, 2);
    word, num := Halve(given, word, num, 1);
    NarrowedEnd(given, word, num);
    return num;
  }

  lemma NarrowedStart(given: Word)
    requires given != ZERO
    ensures Narrowed(given, given, 0, 64)
  {
    var k :| 0 <= k < BITS_PER_LONG && given[k];
    assert Shr(given, 0) == given;
  }

  lemma NarrowedEnd(given: Word, word: Word, num: nat)
    requires Narrowed(given, word, num, 1)
    ensures IsFirst(given, num)
  {}

  /** The same from the other end: the last set bit is among the top `width` of the first num + 1. */
  ghost predicate NarrowedTop(given: Word, word: Word, num: int, width: nat) {
    && width <= num + 1 <= BITS_PER_LONG
    && word == Shl(given, BITS_PER_LONG - 1 - num)
    && (forall k :: num < k < BITS_PER_LONG ==> !given[k])
    && (exists k :: BITS_PER_LONG - width <= k < BITS_PER_LONG && word[k])
  }

  method HalveTop(ghost given: Word, word: Word, num: nat, half: nat) returns (word': Word, num': nat)
    requires half > 0 && NarrowedTop(given, word, num, 2 * half)
    ensures NarrowedTop(given, word', num', half)
  {
    var mask := Shl(ONES, BITS_PER_LONG - half);
    if And(word, mask) == ZERO {
      forall k | BITS_PER_LONG - half <= k < BITS_PER_LONG
        ensures !word[k]
      {
        assert And(word, mask)[k] == ZERO[k];
      }
      num', word' := num - half, Shl(word, half);
      ghost var k :| BITS_PER_LONG - 2 * half <= k < BITS_PER_LONG && word[k];
      assert word'[k + half];
      assert word' == Shl(given, BITS_PER_LONG - 1 - (num - half));
      assert forall j :: num - half < j <= num ==> given[j] == word[j + (BITS_PER_LONG - 1 - num)];
    } else {
      num', word' := num, word;
      ghost var k :| 0 <= k < BITS_PER_LONG && And(word, mask)[k];
      assert word[k] && k >= BITS_PER_LONG - half;
    }
  }

  /** bitops_flsl: the highest set bit. */
  method Flsl(given: Word) returns (r: nat)
    requires given != ZERO
    ensures IsLast(given, r)
  {
    hide NarrowedTop;
    NarrowedTopStart(given);
    var word, num := HalveTop(given, given, BITS_PER_LONG - 1, 32);
    word, num := HalveTop(given, word, num, 16);
    word, num := HalveTop(given, word, num, 8);
    word, num := HalveTop(given, word, num, 4);
    word, num := HalveTop(given, word, num, 2);
    word, num := HalveTop(given, word, num, 1);
    NarrowedTopEnd(given, word, num);
    return num;
  }

  lemma NarrowedTopStart(given: Word)
    requires given != ZERO
    ensures NarrowedTop(given, given, BITS_PER_LONG - 1, 64)
  {
    var k :| 0 <= k < BITS_PER_LONG && given[k];
    assert Shl(given, 0) == given;
  }

  lemma NarrowedTopEnd(given: Word, word: Word, num: nat)
    requires NarrowedTop(given, word, num, 1)
    ensures IsLast(given, num)
  {
    assert word[BITS_PER_LONG - 1];
  }

  /** ffz: the lowest clear bit. */
  method Ffz(given: Word) returns (r: nat)
    requires given != ONES
    ensures IsFirst(Not(given), r)
  {
    assert Not(given) != ZERO by {
      var k :| 0 <= k < BITS_PER_LONG && !given[k];
      assert Not(given)[k];
    }
    r := Ffsl(Not(given));
  }

  // ---- Bitmaps ---------------------------------------------------------------------------------------------

  /** Bit n of a bitmap (test_bit). */
  predicate Bit(addr: seq<Word>, n: nat)
    requires n < BITS_PER_LONG * |addr|
  {
    addr[n / BITS_PER_LONG][n % BITS_PER_LONG]
  }

  /** The search bit by bit: the first bit equal to v in [offset, size), or size. */
  function NextBit(addr: seq<Word>, size: nat, offset: nat, v: bool): nat
    requires size <= BITS_PER_LONG * |addr|
    decreases size - offset
  {
    if offset >= size then size
    else if Bit(addr, offset) == v then offset
    else NextBit(addr, size, offset + 1, v)
  }

  /** Passing over bits that differ from v. */
  lemma {:induction false} NextBitSkip(addr: seq<Word>, size: nat, offset: nat, r: nat, v: bool)
    requires size <= BITS_PER_LONG * |addr| && offset <= r <= size
    requires forall n :: offset <= n < r ==> Bit(addr, n) != v
    ensures NextBit(addr, size, offset, v) == NextBit(addr, size, r, v)
    decreases r - offset
  {
    if offset < r {
      NextBitSkip(addr, size, offset + 1, r, v);
    }
  }

  lemma NextBitFound(addr: seq<Word>, size: nat, offset: nat, r: nat, v: bool)
    requires size <= BITS_PER_LONG * |addr| && offset <= r < size && Bit(addr, r) == v
    requires forall n :: offset <= n < r ==> Bit(addr, n) != v
    ensures NextBit(addr, size, offset, v) == r
  {
    NextBitSkip(addr, size, offset, r, v);
  }

  /** What the search means. */
  lemma {:induction false} NextBitIsFirst(addr: seq<Word>, size: nat, offset: nat, v: bool)
    requires size <= BITS_PER_LONG * |addr|
    ensures var r := NextBit(addr, size, offset, v);
            && r <= size && (r < size ==> offset <= r && Bit(addr, r) == v)
            && (forall n :: offset <= n < r ==> Bit(addr, n) != v)
    decreases size - offset
  {
    if offset < size && Bit(addr, offset) != v {
      NextBitIsFirst(addr, size, offset + 1, v);
    }
  }

  /** The bits of the last word beyond `size` play no part. */
  lemma {:induction false} NextBitBelowSize(a: seq<Word>, b: seq<Word>, size: nat, offset: nat, v: bool)
    requires size <= BITS_PER_LONG * |a| && size <= BITS_PER_LONG * |b|
    requires forall n :: 0 <= n < size ==> Bit(a, n) == Bit(b, n)
    ensures NextBit(a, size, offset, v) == NextBit(b, size, offset, v)
    decreases size - offset
  {
    if offset < size {
      NextBitBelowSize(a, b, size, offset + 1, v);
    }
  }

  /** The bits of word p, from bit `from` of the word on, as bits of the bitmap. */
  lemma WordBits(addr: seq<Word>, p: nat, k: nat)
    requires p < |addr| && k < BITS_PER_LONG
    ensures Bit(addr, BITS_PER_LONG * p + k) == addr[p][k]
  {
    assert (BITS_PER_LONG * p + k) / BITS_PER_LONG == p && (BITS_PER_LONG * p + k) % BITS_PER_LONG == k;
  }

  /** A word without a bit equal to v from `from` up to `to`. */
  lemma WordWithout(addr: seq<Word>, p: nat, from: nat, to: nat, v: bool)
    requires p < |addr| && from <= to <= BITS_PER_LONG
    requires forall k :: from <= k < to ==> addr[p][k] != v
    ensures forall n :: BITS_PER_LONG * p + from <= n < BITS_PER_LONG * p + to ==> Bit(addr, n) != v
  {
    forall n | BITS_PER_LONG * p + from <= n < BITS_PER_LONG * p + to
      ensures Bit(addr, n) != v
    {
      WordBits(addr, p, n - BITS_PER_LONG * p);
    }
  }

  /** The end of the search, in word p: its bits from `from` up to `to` are left to look at. */
  method FinishWord(addr: seq<Word>, size: nat, ghost offset: nat, p: nat, from: nat, to: nat, tmp: Word, ghost v: bool)
    returns (r: nat)
    requires p < |addr| && from <= to <= BITS_PER_LONG && BITS_PER_LONG * p + to <= size <= BITS_PER_LONG * |addr|
    requires offset <= BITS_PER_LONG * p + from
    requires forall n :: offset <= n < BITS_PER_LONG * p + from ==> Bit(addr, n) != v
    requires forall k :: 0 <= k < BITS_PER_LONG ==> tmp[k] == (from <= k < to && addr[p][k] == v)
    requires tmp != ZERO
    ensures r == NextBit(addr, size, offset, v)
  {
    var k := Ffsl(tmp);
    WordWithout(addr, p, from, k, v);
    WordBits(addr, p, k);
    NextBitFound(addr, size, offset, BITS_PER_LONG * p + k, v);
    return BITS_PER_LONG * p + k;
  }

  /** find_next_bit: equal to the search bit by bit, whatever the last word holds beyond `size`. */
  method FindNextBit(addr: seq<Word>, size: nat, offset: nat) returns (r: nat)
    requires size <= BITS_PER_LONG * |addr|
    ensures r == NextBit(addr, size, offset, true)
  {
    hide NextBit, Bit;
    var p := offset / BITS_PER_LONG;
    var result := BITS_PER_LONG * p;
    if offset >= size {
      NextBitEnd(addr, size, offset, true);
      return size;
    }
    var left := size - result;
    var off := offset % BITS_PER_LONG;
    if off != 0 {
      var tmp := And(addr[p], Shl(ONES, off));
      if left < BITS_PER_LONG {
        r := FinishPartial(addr, size, offset, p, off, left, And(tmp, Shr(ONES, BITS_PER_LONG - left)), true);
        return;
      }
      if tmp != ZERO {
        r := FinishWord(addr, size, offset, p, off, BITS_PER_LONG, tmp, true);
        return;
      }
      NoBits(tmp);
      assert forall k :: off <= k < BITS_PER_LONG ==> tmp[k] == addr[p][k];
      WordWithout(addr, p, off, BITS_PER_LONG, true);
      p, left, result := p + 1, left - BITS_PER_LONG, result + BITS_PER_LONG;
    }
    while left >= BITS_PER_LONG
      invariant result == BITS_PER_LONG * p && offset <= result && left == size - result && left >= 0
      invariant forall n :: offset <= n < result ==> Bit(addr, n) != true
    {
      var tmp := addr[p];
      if tmp != ZERO {
        r := FinishWord(addr, size, offset, p, 0, BITS_PER_LONG, tmp, true);
        return;
      }
      NoBits(tmp);
      WordWithout(addr, p, 0, BITS_PER_LONG, true);
      p, left, result := p + 1, left - BITS_PER_LONG, result + BITS_PER_LONG;
    }
    if left == 0 {
      NextBitSkip(addr, size, offset, size, true);
      NextBitEnd(addr, size, size, true);
      return result;
    }
    r := FinishPartial(addr, size, offset, p, 0, left, And(addr[p], Shr(ONES, BITS_PER_LONG - left)), true);
  }

  lemma NoBits(w: Word)
    requires w == ZERO
    ensures forall k :: 0 <= k < BITS_PER_LONG ==> !w[k]
  {}

  lemma NextBitEnd(addr: seq<Word>, size: nat, offset: nat, v: bool)
    requires size <= BITS_PER_LONG * |addr| && offset >= size
    ensures NextBit(addr, size, offset, v) == size
  {}

  /** The label found_first: the last word, of which only `to` bits belong to the bitmap. */
  method FinishPartial(addr: seq<Word>, size: nat, ghost offset: nat, p: nat, from: nat, to: nat, tmp: Word,
                       ghost v: bool)
    returns (r: nat)
    requires p < |addr| && from <= to < BITS_PER_LONG && BITS_PER_LONG * p + to == size <= BITS_PER_LONG * |addr|
    requires offset <= BITS_PER_LONG * p + from
    requires forall n :: offset <= n < BITS_PER_LONG * p + from ==> Bit(addr, n) != v
    requires forall k :: 0 <= k < BITS_PER_LONG ==> tmp[k] == (from <= k < to && addr[p][k] == v)
    ensures r == NextBit(addr, size, offset, v)
  {
    hide NextBit, Bit;
    if tmp == ZERO {
      NoBits(tmp);
      WordWithout(addr, p, from, to, v);
      NextBitSkip(addr, size, offset, size, v);
      NextBitEnd(addr, size, size, v);
      return BITS_PER_LONG * p + to;
    }
    r := FinishWord(addr, size, offset, p, from, to, tmp, v);
  }

  /** find_next_zero_bit, which looks for a clear bit in the same way. */
  method FindNextZeroBit(addr: seq<Word>, size: nat, offset: nat) returns (r: nat)
    requires size <= BITS_PER_LONG * |addr|
    ensures r == NextBit(addr, size, offset, false)
  {
    hide NextBit, Bit;
    var p := offset / BITS_PER_LONG;
    var result := BITS_PER_LONG * p;
    if offset >= size {
      NextBitEnd(addr, size, offset, false);
      return size;
    }
    var left := size - result;
    var off := offset % BITS_PER_LONG;
    if off != 0 {
      var tmp := Or(addr[p], Shr(ONES, BITS_PER_LONG - off));
      if left < BITS_PER_LONG {
        r := FinishPartialZero(addr, size, offset, p, off, left, Or(tmp, Shl(ONES, left)));
        return;
      }
      if Not(tmp) != ZERO {
        r := FinishWord(addr, size, offset, p, off, BITS_PER_LONG, Not(tmp), false);
        return;
      }
      NoBits(Not(tmp));
      assert forall k :: off <= k < BITS_PER_LONG ==> Not(tmp)[k] == !addr[p][k];
      WordWithout(addr, p, off, BITS_PER_LONG, false);
      p, left, result := p + 1, left - BITS_PER_LONG, result + BITS_PER_LONG;
    }
    while left >= BITS_PER_LONG
      invariant result == BITS_PER_LONG * p && offset <= result && left == size - result && left >= 0
      invariant forall n :: offset <= n < result ==> Bit(addr, n) != false
    {
      var tmp := addr[p];
      if Not(tmp) != ZERO {
        r := FinishWord(addr, size, offset, p, 0, BITS_PER_LONG, Not(tmp), false);
        return;
      }
      NoBits(Not(tmp));
      assert forall k :: 0 <= k < BITS_PER_LONG ==> Not(tmp)[k] == !addr[p][k];
      WordWithout(addr, p, 0, BITS_PER_LONG, false);
      p, left, result := p + 1, left - BITS_PER_LONG, result + BITS_PER_LONG;
    }
    if left == 0 {
      NextBitSkip(addr, size, offset, size, false);
      NextBitEnd(addr, size, size, false);
      return result;
    }
    r := FinishPartialZero(addr, size, offset, p, 0, left, Or(addr[p], Shl(ONES, left)));
  }

  /** The label found_first of find_next_zero_bit. */
  method FinishPartialZero(addr: seq<Word>, size: nat, ghost offset: nat, p: nat, from: nat, to: nat, tmp: Word)
    returns (r: nat)
    requires p < |addr| && from <= to < BITS_PER_LONG && BITS_PER_LONG * p + to == size <= BITS_PER_LONG * |addr|
    requires offset <= BITS_PER_LONG * p + from
    requires forall n :: offset <= n < BITS_PER_LONG * p + from ==> Bit(addr, n) != false
    requires forall k :: 0 <= k < BITS_PER_LONG ==> tmp[k] == (k < from || to <= k || addr[p][k])
    ensures r == NextBit(addr, size, offset, false)
  {
    hide NextBit, Bit;
    if tmp == ONES {
      forall k | from <= k < to
        ensures addr[p][k] != false
      {
        assert tmp[k] == ONES[k];
      }
      WordWithout(addr, p, from, to, false);
      NextBitSkip(addr, size, offset, size, false);
      NextBitEnd(addr, size, size, false);
      return BITS_PER_LONG * p + to;
    }
    var k := Ffz(tmp);
    assert forall j :: 0 <= j < BITS_PER_LONG ==> Not(tmp)[j] == !tmp[j];
    WordWithout(addr, p, from, k, false);
    WordBits(addr, p, k);
    NextBitFound(addr, size, offset, BITS_PER_LONG * p + k, false);
    return BITS_PER_LONG * p + k;
  }

  // ---- find_last_bit -----------------------------------------------------------------------------------------

  /** The search bit by bit, downward: the last set bit below n, or size. */
  function LastBit(addr: seq<Word>, size: nat, n: nat): nat
    requires n <= BITS_PER_LONG * |addr|
  {
    if n == 0 then size
    else if Bit(addr, n - 1) then n - 1
    else LastBit(addr, size, n - 1)
  }

  /** What it means. */
  lemma {:induction false} LastBitIsLast(addr: seq<Word>, size: nat, n: nat)
    requires n <= size <= BITS_PER_LONG * |addr|
    ensures var r := LastBit(addr, size, n);
            && (r < n ==> Bit(addr, r) && forall k :: r < k < n ==> !Bit(addr, k))
            && (r >= n ==> r == size && forall k :: 0 <= k < n ==> !Bit(addr, k))
  {
    if n > 0 && !Bit(addr, n - 1) {
      LastBitIsLast(addr, size, n - 1);
    }
  }

  lemma {:induction false} LastBitSkip(addr: seq<Word>, size: nat, n: nat, m: nat)
    requires m <= n <= BITS_PER_LONG * |addr|
    requires forall k :: m <= k < n ==> !Bit(addr, k)
    ensures LastBit(addr, size, n) == LastBit(addr, size, m)
  {
    if m < n {
      LastBitSkip(addr, size, n - 1, m);
    }
  }

  /** The label found: word p holds the last set bit, all bits above its first `to` being clear. */
  method FinishLast(addr: seq<Word>, size: nat, p: nat, to: nat, tmp: Word) returns (r: nat)
    requires p < |addr| && to <= BITS_PER_LONG && BITS_PER_LONG * p + to <= size <= BITS_PER_LONG * |addr|
    requires forall n :: BITS_PER_LONG * p + to <= n < size ==> !Bit(addr, n)
    requires forall k :: 0 <= k < BITS_PER_LONG ==> tmp[k] == (k < to && addr[p][k])
    requires tmp != ZERO
    ensures r == LastBit(addr, size, size)
  {
    hide Bit;
    var k := Flsl(tmp);
    WordWithout(addr, p, k + 1, to, true);
    WordBits(addr, p, k);
    r := BITS_PER_LONG * p + k;
    LastBitSkip(addr, size, size, r + 1);
  }

  method FindLastBit(addr: seq<Word>, size: nat) returns (r: nat)
    requires size <= BITS_PER_LONG * |addr|
    ensures r == LastBit(addr, size, size)
  {
    hide Bit, LastBit;
    var words := size / BITS_PER_LONG;
    var part := size % BITS_PER_LONG;
    if part != 0 {
      var tmp := And(addr[words], Shr(ONES, BITS_PER_LONG - part));
      if tmp != ZERO {
        r := FinishLast(addr, size, words, part, tmp);
        return;
      }
      NoBits(tmp);
      assert forall k :: 0 <= k < part ==> tmp[k] == addr[words][k];
      WordWithout(addr, words, 0, part, true);
    }
    while words != 0
      invariant 0 <= words && BITS_PER_LONG * words <= size
      invariant forall n :: BITS_PER_LONG * words <= n < size ==> !Bit(addr, n)
    {
      words := words - 1;
      var tmp := addr[words];
      if tmp != ZERO {
        r := FinishLast(addr, size, words, BITS_PER_LONG, tmp);
        return;
      }
      NoBits(tmp);
      WordWithout(addr, words, 0, BITS_PER_LONG, true);
    }
    LastBitSkip(addr, size, size, 0);
    LastBitNone(addr, size);
    return size;
  }

  lemma LastBitNone(addr: seq<Word>, size: nat)
    ensures LastBit(addr, size, 0) == size
  {}
}
