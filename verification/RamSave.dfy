/**
  ram_save_block, ram_save_remaining and the opening of stage 1.
 */
module RamSave {
  import opened Base
  import opened RamList
  import opened RamStream

  /**
    The sender: contents of RAM by page address, pages with MIGRATION_DIRTY_FLAG, pages that the
    guest wrote but cpu_physical_sync_dirty_bitmap has not reported yet, and the page at
    (last_block, last_offset).
   */
  datatype Saver = Saver(mem: map<nat, Page>, dirty: set<nat>, log: set<nat>, last: Option<Pos>)

  ghost predicate AllDirty(blocks: seq<RamBlock>, s: Saver) {
    forall p :: ValidPos(blocks, p) ==> Addr(blocks, p) in s.dirty
  }

  /** Before the first page is sent, every page is still dirty. */
  ghost predicate ValidSaver(blocks: seq<RamBlock>, s: Saver) {
    && ValidList(blocks)
    && (forall p :: ValidPos(blocks, p) ==> Addr(blocks, p) in s.mem)
    && (s.last.Some? ==> ValidPos(blocks, s.last.value))
    && (s.last.None? ==> AllDirty(blocks, s))
  }

  function StartPos(s: Saver): Pos {
    if s.last.Some? then s.last.value else Pos(0, 0)
  }

  /** p is the dirty page that the scan meets first. */
  ghost predicate FirstDirty(blocks: seq<RamBlock>, s: Saver, p: Pos) {
    && ValidPos(blocks, StartPos(s)) && ValidPos(blocks, p)
    && Addr(blocks, p) in s.dirty
    && (forall q :: ValidPos(blocks, q) && Addr(blocks, q) in s.dirty ==>
                      DistanceFrom(blocks, StartPos(s), p) <= DistanceFrom(blocks, StartPos(s), q))
  }

  ghost predicate NoneDirty(blocks: seq<RamBlock>, s: Saver) {
    forall p :: ValidPos(blocks, p) ==> Addr(blocks, p) !in s.dirty
  }

  function Sent(blocks: seq<RamBlock>, s: Saver, p: Pos): Saver
    requires p.b < |blocks|
  {
    s.(dirty := s.dirty - {Addr(blocks, p)}, last := Some(p))
  }

  function RecordOf(blocks: seq<RamBlock>, s: Saver, p: Pos): seq<Octet>
    requires p.b < |blocks| && |blocks[p.b].idstr| < 256 && Addr(blocks, p) in s.mem
  {
    PageRecord(s.last.Some? && s.last.value.b == p.b, blocks[p.b].idstr, PAGE * p.i, s.mem[Addr(blocks, p)])
  }

  function GuestWrote(s: Saver, a: nat, page: Page, logged: bool): Saver {
    if logged then s.(mem := s.mem[a := page], log := s.log + {a})
    else s.(mem := s.mem[a := page], dirty := s.dirty + {a})
  }

  function Synced(s: Saver): Saver {
    s.(dirty := s.dirty + s.log, log := {})
  }

  lemma FirstDirtyUnique(blocks: seq<RamBlock>, s: Saver, p: Pos, q: Pos)
    requires FirstDirty(blocks, s, p) && FirstDirty(blocks, s, q)
    ensures p == q
  {
    DistanceInjective(blocks, StartPos(s), p, q);
  }

  /** Sending a page lowers the number of dirty pages by one. */
  lemma SentCount(blocks: seq<RamBlock>, s: Saver, p: Pos)
    requires ValidPos(blocks, p) && Addr(blocks, p) in s.dirty
    ensures |Sent(blocks, s, p).dirty * RamAddrs(blocks)| == |s.dirty * RamAddrs(blocks)| - 1
  {
    RamAddrsMember(blocks, Addr(blocks, p));
    assert Sent(blocks, s, p).dirty * RamAddrs(blocks) == s.dirty * RamAddrs(blocks) - {Addr(blocks, p)};
  }

  // ---- is_dup_page -------------------------------------------------------------------------------------

  function WordAt(page: Page, i: nat): nat
    requires 4 * i + 4 <= PAGE
  {
    (page[4 * i] as int) + 0x100 * (page[4 * i + 1] as int) +
    0x1_0000 * (page[4 * i + 2] as int) + 0x100_0000 * (page[4 * i + 3] as int)
  }

  /** Compares the page with a repeated byte, one 32-bit word at a time. */
  method IsDupPage(page: Page, ch: Octet) returns (dup: bool)
    ensures dup <==> forall k :: 0 <= k < PAGE ==> page[k] == ch
  {
    var c: int := ch;
    var val := c + 0x100 * c + 0x1_0000 * c + 0x100_0000 * c;
    var i := 0;
    while i < PAGE / 4
      invariant 0 <= i <= PAGE / 4
      invariant forall k :: 0 <= k < 4 * i ==> page[k] == ch
    {
      if WordAt(page, i) != val {
        assert page[4 * i] != ch || page[4 * i + 1] != ch || page[4 * i + 2] != ch || page[4 * i + 3] != ch;
        return false;
      }
      i := i + 1;
    }
    return true;
  }

  // ---- The sender as an object -------------------------------------------------------------------------

  class RamSaver {
    const blocks: seq<RamBlock>
    var mem: map<nat, Page>
    var dirty: set<nat>
    var log: set<nat>
    var lastBlock: Option<nat>
    var lastOffset: nat
    var bytesTransferred: nat
    var open: seq<Octet>           // what the current section holds so far
    var sections: seq<seq<Octet>>  // the finished sections

    ghost function State(): Saver
      reads this
    {
      Saver(mem, dirty, log, if lastBlock.None? then None else Some(Pos(lastBlock.value, lastOffset / PAGE)))
    }

    ghost predicate Valid()
      reads this
    {
      && ValidSaver(blocks, State())
      && lastOffset % PAGE == 0
      && (lastBlock.None? ==> lastOffset == 0)
    }

    /** The part of ram_save_block that sends the dirty page p. */
    method SendPage(block: nat, offset: nat, ghost p: Pos) returns (sent: nat)
      requires Valid() && ValidPos(blocks, p) && p.b == block && offset == PAGE * p.i
      requires Addr(blocks, p) in dirty
      modifies this`dirty, this`open
      ensures dirty == old(dirty) - {Addr(blocks, p)}
      ensures open == old(open) + RecordOf(blocks, old(State()), p)
      ensures sent == if IsDup(mem[Addr(blocks, p)]) then 1 else PAGE
    {
      hide Be64;
      var current := blocks[block].offset + offset;
      var cont := lastBlock == Some(block);
      dirty := dirty - {current};
      var page := mem[current];
      var dup := IsDupPage(page, page[0]);
      var name := if cont then [] else [|blocks[block].idstr|] + blocks[block].idstr;
      if dup {
        open := open + (Be64(offset + (if cont then FLAG_CONTINUE else 0) + FLAG_COMPRESS) + name + [page[0]]);
        sent := 1;
      } else {
        open := open + (Be64(offset + (if cont then FLAG_CONTINUE else 0) + FLAG_PAGE) + name + page);
        sent := PAGE;
      }
    }

    /** The loop of ram_save_block, up to the first dirty page or once round the list. */
    method Scan() returns (found: bool, block: nat, offset: nat, ghost p: Pos)
      requires Valid()
      ensures ValidPos(blocks, p) && p.b == block && offset == PAGE * p.i
      ensures found ==> FirstDirty(blocks, State(), p)
      ensures !found ==> NoneDirty(blocks, State()) && State().last == Some(p)
    {
      hide DistanceFrom;
      ghost var s := State();
      ghost var start := StartPos(s);
      ScanStart(blocks, start);
      block := if lastBlock.None? then 0 else lastBlock.value;
      offset := lastOffset;
      var current := blocks[block].offset + offset;
      p := Pos(block, offset / PAGE);
      while true
        invariant ValidPos(blocks, p) && p.b == block && offset == PAGE * p.i && current == Addr(blocks, p)
        invariant ValidPos(blocks, start) && (lastBlock.None? ==> p == start)
        invariant forall q :: ValidPos(blocks, q) && Addr(blocks, q) in s.dirty ==>
                                DistanceFrom(blocks, start, p) <= DistanceFrom(blocks, start, q)
        decreases TotalPages(blocks) - DistanceFrom(blocks, start, p)
      {
        if current in dirty {
          return true, block, offset, p;
        }
        offset := offset + PAGE;
        if offset >= blocks[block].Length() {
          offset := 0;
          block := block + 1;
          if block == |blocks| {
            block := 0;
          }
        }
        current := blocks[block].offset + offset;
        ScanStep(blocks, s, start, p);
        p := Next(blocks, p);
        if current == blocks[lastBlock.value].offset + lastOffset {
          AddrInjective(blocks, p, start);
          return false, block, offset, p;
        }
      }
    }

    /** ram_save_block: bytes of page data sent; p is the page, when there is one. */
    method SaveBlock() returns (sent: nat, ghost p: Pos)
      requires Valid()
      modifies this`dirty, this`lastBlock, this`lastOffset, this`open
      ensures Valid()
      ensures sent == 0 <==> NoneDirty(blocks, old(State()))
      ensures sent == 0 ==> State() == old(State()) && open == old(open)
      ensures sent != 0 ==>
                && FirstDirty(blocks, old(State()), p)
                && State() == Sent(blocks, old(State()), p)
                && open == old(open) + RecordOf(blocks, old(State()), p)
                && sent == if IsDup(mem[Addr(blocks, p)]) then 1 else PAGE
    {
      hide RecordOf, DistanceFrom, IsDup;
      sent := 0;
      var found, block, offset;
      found, block, offset, p := Scan();
      if found {
        sent := SendPage(block, offset, p);
      }
      lastBlock := Some(block);
      lastOffset := offset;
    }

    /** ram_save_remaining: the number of dirty pages. */
    method Remaining() returns (count: nat)
      requires ValidList(blocks)
      ensures count == |dirty * RamAddrs(blocks)|
    {
      hide ValidList;
      count := 0;
      var b := 0;
      while b < |blocks|
        invariant b <= |blocks|
        invariant count == |dirty * AddrsBefore(blocks, b, 0)|
      {
        var i := 0;
        while i < blocks[b].npages
          invariant i <= blocks[b].npages
          invariant count == |dirty * AddrsBefore(blocks, b, i)|
        {
          var addr := blocks[b].offset + PAGE * i;
          NewAddr(blocks, b, i);
          CountOneMore(dirty, AddrsBefore(blocks, b, i), addr);
          if addr in dirty {
            count := count + 1;
          }
          i := i + 1;
        }
        b := b + 1;
      }
    }

    /** The loop of stage 1 that marks every page dirty. */
    method MarkAllDirty()
      modifies this`dirty
      ensures dirty == old(dirty) + RamAddrs(blocks)
    {
      var b := 0;
      while b < |blocks|
        invariant b <= |blocks|
        invariant dirty == old(dirty) + AddrsBefore(blocks, b, 0)
      {
        var i := 0;
        while i < blocks[b].npages
          invariant i <= blocks[b].npages
          invariant dirty == old(dirty) + AddrsBefore(blocks, b, i)
        {
          var addr := blocks[b].offset + PAGE * i;
          if addr !in dirty {
            dirty := dirty + {addr};
          }
          i := i + 1;
        }
        b := b + 1;
      }
    }

    /** The record that announces the size of RAM and its blocks. */
    method PutSizes()
      requires forall b :: 0 <= b < |blocks| ==> |blocks[b].idstr| < 256
      modifies this`open
      ensures open == old(open) + SizesRecord(blocks)
    {
      hide Be64, TotalBytes;
      open := open + Be64(TotalBytes(blocks) + FLAG_MEM_SIZE);
      var b := 0;
      while b < |blocks|
        invariant b <= |blocks|
        invariant old(open) + SizesRecord(blocks) == open + SizeList(blocks[b..])
      {
        assert blocks[b..][1..] == blocks[b + 1..];
        open := open + ([|blocks[b].idstr|] + blocks[b].idstr + Be64(blocks[b].Length()));
        b := b + 1;
      }
    }

    /** The opening of stage 1. */
    method BeginStage1()
      requires ValidList(blocks) && forall p :: ValidPos(blocks, p) ==> Addr(blocks, p) in mem
      requires sections == [] && open == []
      modifies this
      ensures Valid() && lastBlock.None? && bytesTransferred == 0
      ensures mem == old(mem) && log == {} && dirty == old(dirty) + old(log) + RamAddrs(blocks)
      ensures sections == [] && open == SizesRecord(blocks)
    {
      dirty, log := dirty + log, {};
      bytesTransferred := 0;
      lastBlock, lastOffset := None, 0;
      MarkAllDirty();
      PutSizes();
      forall p | ValidPos(blocks, p)
        ensures Addr(blocks, p) in dirty
      {
        RamAddrsMember(blocks, Addr(blocks, p));
      }
    }
  }

  lemma CountOneMore(dirty: set<nat>, seen: set<nat>, a: nat)
    requires a !in seen
    ensures |dirty * (seen + {a})| == |dirty * seen| + if a in dirty then 1 else 0
  {
    assert dirty * (seen + {a}) == if a in dirty then dirty * seen + {a} else dirty * seen;
  }

  /** The next page's address is not among those of the pages before it. */
  lemma NewAddr(blocks: seq<RamBlock>, b: nat, i: nat)
    requires ValidList(blocks) && ValidPos(blocks, Pos(b, i))
    ensures Addr(blocks, Pos(b, i)) !in AddrsBefore(blocks, b, i)
  {
    var a := Addr(blocks, Pos(b, i));
    AddrsBeforeMember(blocks, b, i, a);
    if a in AddrsBefore(blocks, b, i) {
      var p :| ValidPos(blocks, p) && (p.b < b || (p.b == b && p.i < i)) && Addr(blocks, p) == a;
      AddrInjective(blocks, p, Pos(b, i));
    }
  }

  lemma ScanStart(blocks: seq<RamBlock>, start: Pos)
    requires ValidList(blocks) && ValidPos(blocks, start)
    ensures DistanceFrom(blocks, start, start) == 0 < TotalPages(blocks)
    ensures forall q :: ValidPos(blocks, q) ==> 0 <= DistanceFrom(blocks, start, q)
  {
    NextDistance(blocks, start, start);
    forall q | ValidPos(blocks, q)
      ensures 0 <= DistanceFrom(blocks, start, q)
    {
      NextDistance(blocks, start, q);
    }
  }

  /** When p is clean too, the next dirty page is further on, or there is none. */
  lemma ScanStep(blocks: seq<RamBlock>, s: Saver, start: Pos, p: Pos)
    requires ValidList(blocks) && ValidPos(blocks, start) && ValidPos(blocks, p)
    requires Addr(blocks, p) !in s.dirty
    requires forall q :: ValidPos(blocks, q) && Addr(blocks, q) in s.dirty ==>
                           DistanceFrom(blocks, start, p) <= DistanceFrom(blocks, start, q)
    ensures ValidPos(blocks, Next(blocks, p))
    ensures Next(blocks, p) == start ==> NoneDirty(blocks, s)
    ensures Next(blocks, p) != start ==>
              && DistanceFrom(blocks, start, p) < DistanceFrom(blocks, start, Next(blocks, p)) < TotalPages(blocks)
              && forall q :: ValidPos(blocks, q) && Addr(blocks, q) in s.dirty ==>
                               DistanceFrom(blocks, start, Next(blocks, p)) <= DistanceFrom(blocks, start, q)
  {
    hide DistanceFrom;
    NextDistance(blocks, start, p);
    NextDistance(blocks, start, Next(blocks, p));
    forall q | ValidPos(blocks, q) && Addr(blocks, q) in s.dirty
      ensures DistanceFrom(blocks, start, p) < DistanceFrom(blocks, start, q) < TotalPages(blocks)
    {
      NextDistance(blocks, start, q);
      if DistanceFrom(blocks, start, q) == DistanceFrom(blocks, start, p) {
        DistanceInjective(blocks, start, p, q);
      }
    }
  }
}
