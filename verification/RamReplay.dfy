/**
  What ram_load does with each record that ram_save_live writes.
 */
module RamReplay {
  import opened Base
  import opened RamList
  import opened RamStream
  import opened RamLoad

  /** A header splits into the page-aligned number and the flags it was made of. */
  lemma HeaderSplit(n: nat, flags: nat)
    requires n % PAGE == 0 && flags < PAGE && n + flags < TWO64
    ensures Value(Be64(n + flags)) % PAGE == flags
    ensures Value(Be64(n + flags)) - flags == n
  {
    hide Be64, Value;
    Be64RoundTrip(n + flags);
  }

  /** The receiver's block for that name, the only one. */
  ghost predicate Knows(blocks: seq<RamBlock>, id: seq<Octet>, b: nat) {
    && b < |blocks| && blocks[b].idstr == id
    && (forall c :: 0 <= c < |blocks| && blocks[c].idstr == id ==> c == b)
  }

  lemma FindKnown(blocks: seq<RamBlock>, id: seq<Octet>, b: nat)
    requires Knows(blocks, id, b)
    ensures Find(blocks, id) == Some(b)
  {
    hide Find;
  }

  lemma GetIdBack(id: seq<Octet>, rest: seq<Octet>)
    requires |id| < 256
    ensures GetId([|id|] + id + rest) == Some((id, rest))
  {
    var s := [|id|] + id + rest;
    assert s[1..|id| + 1] == id && s[|id| + 1..] == rest;
  }

  lemma FilledIsDup(page: Page)
    requires IsDup(page)
    ensures Filled(page[0]) == page
  {}

  /** What replaying a page record changes. */
  function Replayed(blocks: seq<RamBlock>, st: Loader, b: nat, offset: nat, page: Page): Loader
    requires b < |blocks|
  {
    Loader(st.mem[blocks[b].offset + offset := page], Some(b))
  }

  lemma HostBack(blocks: seq<RamBlock>, cur: Option<nat>, b: nat, cont: bool, offset: nat, code: int,
                 idstr: seq<Octet>, rest: seq<Octet>)
    requires |idstr| < 256 && Knows(blocks, idstr, b) && offset < blocks[b].Length()
    requires (cont ==> cur == Some(b)) && code < 0
    ensures HostFor(blocks, cur, offset, cont, code, (if cont then [] else [|idstr|] + idstr) + rest) ==
            Host(Some(b), blocks[b].offset + offset, rest)
  {
    hide GetId, Find;
    if cont {
      assert [] + rest == rest;
    } else {
      GetIdBack(idstr, rest);
      FindKnown(blocks, idstr, b);
    }
  }

  lemma PageFlags(cont: bool, dup: bool)
    ensures var flags := (if cont then FLAG_CONTINUE else 0) + (if dup then FLAG_COMPRESS else FLAG_PAGE);
            && flags < PAGE
            && HasFlag(flags, FLAG_CONTINUE) == cont
            && HasFlag(flags, FLAG_COMPRESS) == dup
            && HasFlag(flags, FLAG_PAGE) == !dup
            && !HasFlag(flags, FLAG_MEM_SIZE) && !HasFlag(flags, FLAG_EOS)
  {}

  /** A page record puts the page where it belongs and leaves its block remembered. */
  lemma ReplayPage(blocks: seq<RamBlock>, st: Loader, b: nat, cont: bool, idstr: seq<Octet>, offset: nat, page: Page,
                   rest: seq<Octet>)
    requires |idstr| < 256 && Knows(blocks, idstr, b)
    requires offset % PAGE == 0 && offset < blocks[b].Length() < TWO64
    requires cont ==> st.cur == Some(b)
    ensures LoadSection(blocks, st, PageRecord(cont, idstr, offset, page) + rest) ==
            LoadSection(blocks, Replayed(blocks, st, b, offset, page), rest)
  {
    hide Be64, Value, HostFor, HasFlag, Filled, CheckSizes, IsDup;
    var dup := IsDup(page);
    var flags := (if cont then FLAG_CONTINUE else 0) + (if dup then FLAG_COMPRESS else FLAG_PAGE);
    var name := if cont then [] else [|idstr|] + idstr;
    var body: seq<Octet> := if dup then [page[0]] else page;
    PageFlags(cont, dup);
    HeaderSplit(offset, flags);
    var s := PageRecord(cont, idstr, offset, page) + rest;
    assert s[..8] == Be64(offset + flags);
    assert s[8..] == name + (body + rest);
    HostBack(blocks, st.cur, b, cont, offset, if dup then -EINVAL else -EFAULT, idstr, body + rest);
    if dup {
      FilledIsDup(page);
      assert (body + rest)[1..] == rest;
    } else {
      assert (body + rest)[..PAGE] == page && (body + rest)[PAGE..] == rest;
    }
    assert LoadOne(blocks, st, s) == Loaded(Replayed(blocks, st, b, offset, page), rest);
  }

  lemma ReplayEos(blocks: seq<RamBlock>, st: Loader, rest: seq<Octet>)
    ensures LoadSection(blocks, st, EosRecord() + rest) == Loaded(st, rest)
  {
    hide Be64, Value, CheckSizes;
    HeaderSplit(0, FLAG_EOS);
    var s := EosRecord() + rest;
    assert s[..8] == EosRecord() && s[8..] == rest;
    assert LoadOne(blocks, st, s) == Loaded(st, rest);
  }

  /** Every block of the sender exists at the receiver, once and with the same length. */
  ghost predicate SameBlocks(src: seq<RamBlock>, dst: seq<RamBlock>, at: seq<nat>) {
    && |at| == |src|
    && (forall b :: 0 <= b < |src| ==> Knows(dst, src[b].idstr, at[b]) && dst[at[b]].npages == src[b].npages)
  }

  /** One entry of the list is accepted. */
  lemma CheckEntry(dst: seq<RamBlock>, block: RamBlock, b: nat, total: nat, more: seq<Octet>)
    requires |block.idstr| < 256 && Knows(dst, block.idstr, b) && dst[b].npages == block.npages
    requires 0 < block.Length() <= total < TWO64
    ensures CheckSizes(dst, total, [|block.idstr|] + block.idstr + (Be64(block.Length()) + more)) ==
            CheckSizes(dst, total - block.Length(), more)
  {
    hide Be64, Value, GetId, Find;
    var tail := Be64(block.Length()) + more;
    GetIdBack(block.idstr, tail);
    assert tail[..8] == Be64(block.Length()) && tail[8..] == more;
    Be64RoundTrip(block.Length());
    FindKnown(dst, block.idstr, b);
    assert (total - block.Length()) % TWO64 == total - block.Length();
  }

  lemma {:induction false} CheckSizesBack(src: seq<RamBlock>, dst: seq<RamBlock>, at: seq<nat>, rest: seq<Octet>)
    requires SameBlocks(src, dst, at)
    requires forall b :: 0 <= b < |src| ==> src[b].npages > 0 && |src[b].idstr| < 256
    requires TotalBytes(src) < TWO64
    ensures CheckSizes(dst, TotalBytes(src), SizeList(src) + rest) == Rest(rest)
    decreases |src|
  {
    hide CheckSizes, Be64, Knows;
    if src == [] {
      assert SizeList(src) + rest == rest;
      CheckNothing(dst, rest);
    } else {
      var block, more := src[0], SizeList(src[1..]) + rest;
      assert SizeList(src) + rest == [|block.idstr|] + block.idstr + (Be64(block.Length()) + more);
      CheckEntry(dst, block, at[0], TotalBytes(src), more);
      CheckSizesBack(src[1..], dst, at[1..], rest);
    }
  }

  lemma CheckNothing(dst: seq<RamBlock>, rest: seq<Octet>)
    ensures CheckSizes(dst, 0, rest) == Rest(rest)
  {}

  lemma {:induction false} TotalBytesAligned(blocks: seq<RamBlock>)
    ensures TotalBytes(blocks) % PAGE == 0
  {
    if blocks != [] {
      TotalBytesAligned(blocks[1..]);
    }
  }

  /** The opening record is accepted and changes nothing. */
  lemma ReplaySizes(src: seq<RamBlock>, dst: seq<RamBlock>, at: seq<nat>, st: Loader, rest: seq<Octet>)
    requires ValidList(src) && SameBlocks(src, dst, at)
    ensures LoadSection(dst, st, SizesRecord(src) + rest) == LoadSection(dst, st, rest)
  {
    hide Be64, Value, CheckSizes, SizeList, TotalBytes;
    TotalBytesAligned(src);
    HeaderSplit(TotalBytes(src), FLAG_MEM_SIZE);
    var s := SizesRecord(src) + rest;
    assert s[..8] == Be64(TotalBytes(src) + FLAG_MEM_SIZE) && s[8..] == SizeList(src) + rest;
    CheckSizesBack(src, dst, at, rest);
    assert LoadOne(dst, st, s) == Loaded(st, rest);
  }

  // ---- Which block lists the receiver accepts -----------------------------------------------------------

  /** Taking these blocks' lengths from `total` modulo 2^64 gives zero after the last of them and not before. */
  ghost predicate Exhausts(blocks: seq<RamBlock>, total: nat, at: seq<nat>)
    ensures Exhausts(blocks, total, at) ==> forall k :: 0 <= k < |at| ==> at[k] < |blocks|
    decreases |at|
  {
    if total == 0 then at == []
    else at != [] && at[0] < |blocks| && Exhausts(blocks, (total - blocks[at[0]].Length()) % TWO64, at[1..])
  }

  /** The receiver's blocks with these numbers, in this order. */
  function Picked(blocks: seq<RamBlock>, at: seq<nat>): (r: seq<RamBlock>)
    requires forall k :: 0 <= k < |at| ==> at[k] < |blocks|
    ensures |r| == |at| && forall k :: 0 <= k < |at| ==> r[k] == blocks[at[k]]
  {
    if at == [] then [] else [blocks[at[0]]] + Picked(blocks, at[1..])
  }

  /** s lists receiver's blocks by name and length until `total` is used up, and `rest` follows. */
  ghost predicate Lists(blocks: seq<RamBlock>, total: nat, s: seq<Octet>, at: seq<nat>, rest: seq<Octet>)
    requires ValidList(blocks)
  {
    Exhausts(blocks, total, at) && s == SizeList(Picked(blocks, at)) + rest
  }

  lemma BlockLength(blocks: seq<RamBlock>, b: nat)
    requires b < |blocks|
    ensures blocks[b].Length() <= TotalBytes(blocks)
    decreases |blocks|
  {
    if b > 0 {
      BlockLength(blocks[1..], b - 1);
    }
  }

  /** The first entry of an accepted list names a block of the receiver and gives its length. */
  lemma FirstEntry(blocks: seq<RamBlock>, total: nat, s: seq<Octet>) returns (b: nat, more: seq<Octet>)
    requires total != 0 && CheckSizes(blocks, total, s).Rest?
    ensures b < |blocks| && |blocks[b].idstr| < 256
    ensures s == [|blocks[b].idstr|] + blocks[b].idstr + (Be64(blocks[b].Length()) + more)
    ensures CheckSizes(blocks, (total - blocks[b].Length()) % TWO64, more) == CheckSizes(blocks, total, s)
  {
    hide Value, Find, Digits;
    var (id, s1) := GetId(s).value;
    b, more := Find(blocks, id).value, s1[8..];
    DigitsValue(s1[..8]);
    assert s1 == s1[..8] + more;
    assert s == [|id|] + id + s1;
  }

  lemma {:induction false} AcceptedLists(blocks: seq<RamBlock>, total: nat, s: seq<Octet>) returns (at: seq<nat>)
    requires ValidList(blocks) && CheckSizes(blocks, total, s).Rest?
    ensures Lists(blocks, total, s, at, CheckSizes(blocks, total, s).rest)
    decreases |s|
  {
    hide CheckSizes, Be64;
    if total == 0 {
      CheckNothing(blocks, s);
      at := [];
      assert Picked(blocks, at) == [];
    } else {
      var b, more := FirstEntry(blocks, total, s);
      var tail := AcceptedLists(blocks, (total - blocks[b].Length()) % TWO64, more);
      at := [b] + tail;
      assert at[1..] == tail;
      assert Picked(blocks, at)[1..] == Picked(blocks, tail);
    }
  }

  lemma ListsNothing(blocks: seq<RamBlock>, s: seq<Octet>, at: seq<nat>, rest: seq<Octet>)
    requires ValidList(blocks) && Lists(blocks, 0, s, at, rest)
    ensures s == rest
  {
    assert Picked(blocks, []) == [] && SizeList([]) == [];
  }

  /** A list that is not over starts with an entry for a block of the receiver. */
  lemma ListsStep(blocks: seq<RamBlock>, total: nat, s: seq<Octet>, at: seq<nat>, rest: seq<Octet>)
    returns (b: nat, more: seq<Octet>)
    requires ValidList(blocks) && total != 0 && Lists(blocks, total, s, at, rest)
    ensures at != [] && b == at[0] < |blocks| && |blocks[b].idstr| < 256
    ensures s == [|blocks[b].idstr|] + blocks[b].idstr + (Be64(blocks[b].Length()) + more)
    ensures Lists(blocks, (total - blocks[b].Length()) % TWO64, more, at[1..], rest)
  {
    hide Be64;
    b, more := at[0], SizeList(Picked(blocks, at[1..])) + rest;
    assert Picked(blocks, at)[1..] == Picked(blocks, at[1..]);
  }

  lemma {:induction false} ListsAccepted(blocks: seq<RamBlock>, total: nat, s: seq<Octet>, at: seq<nat>,
                                         rest: seq<Octet>)
    requires ValidList(blocks) && Lists(blocks, total, s, at, rest)
    ensures CheckSizes(blocks, total, s) == Rest(rest)
    decreases |at|
  {
    hide CheckSizes, Be64, ValidList, Lists, Exhausts, Picked, SizeList;
    if total == 0 {
      CheckNothing(blocks, rest);
      ListsNothing(blocks, s, at, rest);
    } else {
      var b, more := ListsStep(blocks, total, s, at, rest);
      ListsAccepted(blocks, (total - blocks[b].Length()) % TWO64, more, at[1..], rest);
      CheckOwnEntry(blocks, b, total, more);
    }
  }

  lemma CheckOwnEntry(blocks: seq<RamBlock>, b: nat, total: nat, more: seq<Octet>)
    requires ValidList(blocks) && b < |blocks| && total != 0
    ensures CheckSizes(blocks, total, [|blocks[b].idstr|] + blocks[b].idstr + (Be64(blocks[b].Length()) + more)) ==
            CheckSizes(blocks, (total - blocks[b].Length()) % TWO64, more)
  {
    hide Be64, Value, GetId, Find;
    var tail := Be64(blocks[b].Length()) + more;
    GetIdBack(blocks[b].idstr, tail);
    assert tail[..8] == Be64(blocks[b].Length()) && tail[8..] == more;
    BlockLength(blocks, b);
    Be64RoundTrip(blocks[b].Length());
    FindKnown(blocks, blocks[b].idstr, b);
  }

  /** The check succeeds exactly on the lists of the receiver's own blocks, and leaves what follows the list. */
  lemma SizesAcceptedExactly(blocks: seq<RamBlock>, total: nat, s: seq<Octet>, rest: seq<Octet>)
    requires ValidList(blocks)
    ensures CheckSizes(blocks, total, s) == Rest(rest) <==> exists at :: Lists(blocks, total, s, at, rest)
  {
    hide CheckSizes, Lists, ValidList;
    if CheckSizes(blocks, total, s) == Rest(rest) {
      var at := AcceptedLists(blocks, total, s);
      assert Lists(blocks, total, s, at, rest);
    }
    if at :| Lists(blocks, total, s, at, rest) {
      ListsAccepted(blocks, total, s, at, rest);
    }
  }
}
