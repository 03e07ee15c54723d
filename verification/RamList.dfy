/**
  The list of RAM blocks of arch_init.c and the circular order in which its pages are scanned.
 */
module RamList {
  import opened Base

  const PAGE: nat := 4096  // TARGET_PAGE_SIZE
  const TWO64: nat := 0x1_0000_0000_0000_0000

  type Page = p: seq<Octet> | |p| == PAGE witness seq(PAGE, _ => 0)

  /** RAMBlock: `offset` is its place in the ram_addr_t space, where blocks do not overlap. */
  datatype RamBlock = RamBlock(idstr: seq<Octet>, offset: nat, npages: nat) {
    function Length(): nat { PAGE * npages }
  }

  /** A page of the list: block number and page number within the block. */
  datatype Pos = Pos(b: nat, i: nat)

  ghost predicate ValidList(blocks: seq<RamBlock>) {
    && |blocks| > 0
    && (forall b :: 0 <= b < |blocks| ==> blocks[b].npages > 0 && |blocks[b].idstr| < 256)
    && (forall b :: 0 <= b < |blocks| ==> blocks[b].offset % PAGE == 0)
    && (forall b, c :: 0 <= b < c < |blocks| ==> blocks[b].idstr != blocks[c].idstr)
    && (forall b, c :: 0 <= b < c < |blocks| ==> Disjoint(blocks[b], blocks[c]))
    && TotalBytes(blocks) < TWO64
  }

  ghost predicate Disjoint(x: RamBlock, y: RamBlock) {
    x.offset + x.Length() <= y.offset || y.offset + y.Length() <= x.offset
  }

  /** ram_bytes_total */
  function TotalBytes(blocks: seq<RamBlock>): nat {
    if blocks == [] then 0 else blocks[0].Length() + TotalBytes(blocks[1..])
  }

  predicate ValidPos(blocks: seq<RamBlock>, p: Pos) {
    p.b < |blocks| && p.i < blocks[p.b].npages
  }

  /** The ram_addr_t of a page. */
  function Addr(blocks: seq<RamBlock>, p: Pos): nat
    requires p.b < |blocks|
  {
    blocks[p.b].offset + PAGE * p.i
  }

  lemma AddrInjective(blocks: seq<RamBlock>, p: Pos, q: Pos)
    requires ValidList(blocks) && ValidPos(blocks, p) && ValidPos(blocks, q)
    requires Addr(blocks, p) == Addr(blocks, q)
    ensures p == q
  {}

  // ---- The circular order --------------------------------------------------------------------------

  /** The number of pages in the first b blocks. */
  function Before(blocks: seq<RamBlock>, b: nat): nat
    requires b <= |blocks|
  {
    if b == 0 then 0 else Before(blocks, b - 1) + blocks[b - 1].npages
  }

  function Index(blocks: seq<RamBlock>, p: Pos): nat
    requires p.b <= |blocks|
  {
    Before(blocks, p.b) + p.i
  }

  function TotalPages(blocks: seq<RamBlock>): nat {
    Before(blocks, |blocks|)
  }

  /** The page that the scan looks at after p. */
  function Next(blocks: seq<RamBlock>, p: Pos): Pos
    requires ValidPos(blocks, p)
  {
    if p.i + 1 < blocks[p.b].npages then Pos(p.b, p.i + 1)
    else if p.b + 1 < |blocks| then Pos(p.b + 1, 0)
    else Pos(0, 0)
  }

  lemma {:induction false} BeforeStep(blocks: seq<RamBlock>, b: nat, c: nat)
    requires b < c <= |blocks|
    ensures Before(blocks, b) + blocks[b].npages <= Before(blocks, c)
  {
    if b + 1 < c {
      BeforeStep(blocks, b, c - 1);
    }
  }

  lemma IndexInRange(blocks: seq<RamBlock>, p: Pos)
    requires ValidPos(blocks, p)
    ensures Index(blocks, p) < TotalPages(blocks)
  {
    BeforeStep(blocks, p.b, |blocks|);
  }

  lemma IndexInjective(blocks: seq<RamBlock>, p: Pos, q: Pos)
    requires ValidPos(blocks, p) && ValidPos(blocks, q)
    requires Index(blocks, p) == Index(blocks, q)
    ensures p == q
  {
    if p.b < q.b {
      BeforeStep(blocks, p.b, q.b);
    } else if q.b < p.b {
      BeforeStep(blocks, q.b, p.b);
    }
  }

  /** The scan counts up through all pages and starts over. */
  lemma NextIndex(blocks: seq<RamBlock>, p: Pos)
    requires ValidList(blocks) && ValidPos(blocks, p)
    ensures var q := Next(blocks, p);
            && ValidPos(blocks, q)
            && Index(blocks, q) == if Index(blocks, p) + 1 < TotalPages(blocks) then Index(blocks, p) + 1 else 0
  {
    IndexInRange(blocks, p);
    IndexInRange(blocks, Next(blocks, p));
    assert blocks[0].npages > 0;
  }

  /** How far k lies after k0 in the circle of n pages. */
  function Distance(k0: nat, k: nat, n: nat): int {
    if k0 <= k then k - k0 else k - k0 + n
  }

  function DistanceFrom(blocks: seq<RamBlock>, start: Pos, p: Pos): int
    requires ValidPos(blocks, start) && ValidPos(blocks, p)
  {
    Distance(Index(blocks, start), Index(blocks, p), TotalPages(blocks))
  }

  /** The scan moves one place further round the circle, until it is back at its start. */
  lemma NextDistance(blocks: seq<RamBlock>, start: Pos, p: Pos)
    requires ValidList(blocks) && ValidPos(blocks, start) && ValidPos(blocks, p)
    ensures ValidPos(blocks, Next(blocks, p))
    ensures 0 <= DistanceFrom(blocks, start, p) < TotalPages(blocks)
    ensures Next(blocks, p) != start ==>
              DistanceFrom(blocks, start, Next(blocks, p)) == DistanceFrom(blocks, start, p) + 1
    ensures Next(blocks, p) == start ==> DistanceFrom(blocks, start, p) == TotalPages(blocks) - 1
  {
    hide Next, Index, TotalPages, ValidList;
    IndexInRange(blocks, start);
    IndexInRange(blocks, p);
    NextIndex(blocks, p);
    var q := Next(blocks, p);
    if q != start && Index(blocks, q) == Index(blocks, start) {
      IndexInjective(blocks, q, start);
    }
  }

  lemma DistanceInjective(blocks: seq<RamBlock>, start: Pos, p: Pos, q: Pos)
    requires ValidPos(blocks, start) && ValidPos(blocks, p) && ValidPos(blocks, q)
    requires DistanceFrom(blocks, start, p) == DistanceFrom(blocks, start, q)
    ensures p == q
  {
    IndexInRange(blocks, start);
    IndexInRange(blocks, p);
    IndexInRange(blocks, q);
    IndexInjective(blocks, p, q);
  }

  // ---- Sets of page addresses ----------------------------------------------------------------------

  /** The addresses of the pages of the first b blocks and of the first i pages of block b. */
  function AddrsBefore(blocks: seq<RamBlock>, b: nat, i: nat): set<nat>
    requires b <= |blocks| && (b == |blocks| ==> i == 0)
    decreases b, i
  {
    if i > 0 then AddrsBefore(blocks, b, i - 1) + {Addr(blocks, Pos(b, i - 1))}
    else if b > 0 then AddrsBefore(blocks, b - 1, blocks[b - 1].npages)
    else {}
  }

  function RamAddrs(blocks: seq<RamBlock>): set<nat> {
    AddrsBefore(blocks, |blocks|, 0)
  }

  lemma {:induction false} AddrsBeforeMember(blocks: seq<RamBlock>, b: nat, i: nat, a: nat)
    requires b <= |blocks| && (b == |blocks| ==> i == 0) && (b < |blocks| ==> i <= blocks[b].npages)
    ensures a in AddrsBefore(blocks, b, i) <==>
            exists p :: ValidPos(blocks, p) && (p.b < b || (p.b == b && p.i < i)) && Addr(blocks, p) == a
    decreases b, i
  {
    if i > 0 {
      AddrsBeforeMember(blocks, b, i - 1, a);
      if a == Addr(blocks, Pos(b, i - 1)) {
        assert ValidPos(blocks, Pos(b, i - 1));
      }
    } else if b > 0 {
      AddrsBeforeMember(blocks, b - 1, blocks[b - 1].npages, a);
    }
  }

  lemma RamAddrsMember(blocks: seq<RamBlock>, a: nat)
    ensures a in RamAddrs(blocks) <==> exists p :: ValidPos(blocks, p) && Addr(blocks, p) == a
  {
    AddrsBeforeMember(blocks, |blocks|, 0, a);
  }
}
