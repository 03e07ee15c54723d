/**
  ram_load and host_from_stream_offset, for stream version 4.
 */
module RamLoad {
  import opened Base
  import opened RamList
  import opened RamStream

  const EINVAL: int := 22
  const EIO: int := 5
  const EFAULT: int := 14

  /** Contents of RAM by page address, and the block remembered by host_from_stream_offset. */
  datatype Loader = Loader(mem: map<nat, Page>, cur: Option<nat>)

  datatype Parsed = Rest(rest: seq<Octet>) | Bad(code: int)

  datatype Host = Host(cur: Option<nat>, addr: nat, rest: seq<Octet>) | NoHost(code: int)

  datatype LoadResult = Loaded(st: Loader, rest: seq<Octet>) | Failed(code: int)

  /** The first block of that name in the list. */
  function Find(blocks: seq<RamBlock>, id: seq<Octet>): (r: Option<nat>)
    ensures r.Some? ==> r.value < |blocks| && blocks[r.value].idstr == id
    ensures r.None? ==> forall b :: 0 <= b < |blocks| ==> blocks[b].idstr != id
  {
    if blocks == [] then None
    else if blocks[0].idstr == id then Some(0)
    else match Find(blocks[1..], id)
      case None => None
      case Some(b) => Some(b + 1)
  }

  /** A length byte and that many bytes: the name, and the stream after it. */
  function GetId(s: seq<Octet>): (r: Option<(seq<Octet>, seq<Octet>)>)
    ensures r.Some? ==> |r.value.1| < |s|
  {
    if s == [] then None
    else
      var len: nat := s[0];
      if |s| < len + 1 then None else Some((s[1..len + 1], s[len + 1..]))
  }

  /** The loop that compares the sender's block list with the receiver's. */
  function CheckSizes(blocks: seq<RamBlock>, total: nat, s: seq<Octet>): (r: Parsed)
    ensures if r.Rest? then |r.rest| <= |s| else r.code < 0
    decreases |s|
  {
    if total == 0 then Rest(s)
    else match GetId(s)
      case None => Bad(-EIO)
      case Some((id, s1)) =>
        if |s1| < 8 then Bad(-EIO)
        else
          var length := Value(s1[..8]);
          match Find(blocks, id)
          case None => Bad(-EINVAL)
          case Some(b) =>
            if blocks[b].Length() != length then Bad(-EINVAL)
            else CheckSizes(blocks, (total - length) % TWO64, s1[8..])
  }

  /** Where a page record goes; a place outside the block is undefined behaviour in the code. */
  function PlaceIn(blocks: seq<RamBlock>, b: nat, offset: nat, rest: seq<Octet>): Host
    requires b < |blocks|
  {
    if offset < blocks[b].Length() then Host(Some(b), blocks[b].offset + offset, rest) else NoHost(-EFAULT)
  }

  /** host_from_stream_offset; `nullCode` is what becomes of a null result. */
  function HostFor(blocks: seq<RamBlock>, cur: Option<nat>, offset: nat, cont: bool, nullCode: int,
                   s: seq<Octet>): (r: Host)
    requires nullCode < 0
    ensures if r.Host? then |r.rest| <= |s| else r.code < 0
  {
    if cont then
      if cur.Some? && cur.value < |blocks| then PlaceIn(blocks, cur.value, offset, s) else NoHost(nullCode)
    else match GetId(s)
      case None => NoHost(-EIO)
      case Some((id, s1)) =>
        match Find(blocks, id)
        case None => NoHost(nullCode)
        case Some(b) => PlaceIn(blocks, b, offset, s1)
  }

  /** A page of equal bytes, as memset leaves it. */
  function Filled(ch: Octet): Page {
    seq(PAGE, _ => ch)
  }

  /** The part of one iteration of ram_load that depends on the flags COMPRESS and PAGE. */
  function LoadPage(blocks: seq<RamBlock>, st: Loader, addr: nat, flags: nat, s: seq<Octet>): (r: LoadResult)
    ensures if r.Loaded? then |r.rest| <= |s| else r.code < 0
  {
    var cont := HasFlag(flags, FLAG_CONTINUE);
    if HasFlag(flags, FLAG_COMPRESS) then
      match HostFor(blocks, st.cur, addr, cont, -EINVAL, s)
      case NoHost(code) => Failed(code)
      case Host(cur, host, s1) =>
        if s1 == [] then Failed(-EIO) else Loaded(Loader(st.mem[host := Filled(s1[0])], cur), s1[1..])
    else if HasFlag(flags, FLAG_PAGE) then
      match HostFor(blocks, st.cur, addr, cont, -EFAULT, s)
      case NoHost(code) => Failed(code)
      case Host(cur, host, s1) =>
        if |s1| < PAGE then Failed(-EIO) else Loaded(Loader(st.mem[host := s1[..PAGE]], cur), s1[PAGE..])
    else Loaded(st, s)
  }

  /** One iteration of ram_load: the state after it, and whether it was the last. */
  function LoadOne(blocks: seq<RamBlock>, st: Loader, s: seq<Octet>): (r: LoadResult)
    requires |s| >= 8
    ensures if r.Loaded? then |r.rest| < |s| else r.code < 0
  {
    var h := Value(s[..8]);
    var flags := h % PAGE;
    var addr := h - flags;
    if HasFlag(flags, FLAG_MEM_SIZE) then
      match CheckSizes(blocks, addr, s[8..])
      case Bad(code) => Failed(code)
      case Rest(s1) => LoadPage(blocks, st, addr, flags, s1)
    else LoadPage(blocks, st, addr, flags, s[8..])
  }

  predicate IsLast(s: seq<Octet>)
    requires |s| >= 8
  {
    HasFlag(Value(s[..8]) % PAGE, FLAG_EOS)
  }

  /** ram_load: records up to and including one with EOS. */
  function LoadSection(blocks: seq<RamBlock>, st: Loader, s: seq<Octet>): (r: LoadResult)
    ensures if r.Loaded? then |r.rest| < |s| else r.code < 0
    decreases |s|
  {
    if |s| < 8 then Failed(-EIO)
    else
      match LoadOne(blocks, st, s)
      case Failed(code) => Failed(code)
      case Loaded(st1, s1) => if IsLast(s) then Loaded(st1, s1) else LoadSection(blocks, st1, s1)
  }

  // ---- The receiver as an object ---------------------------------------------------------------------

  class RamLoader {
    const blocks: seq<RamBlock>
    var mem: map<nat, Page>
    var cur: Option<nat>

    constructor (blocks: seq<RamBlock>, mem: map<nat, Page>)
      ensures this.blocks == blocks && State() == Loader(mem, None)
    {
      this.blocks, this.mem, this.cur := blocks, mem, None;
    }

    function State(): Loader
      reads this
    {
      Loader(mem, cur)
    }

    /** QLIST_FOREACH over the block list, looking for a name. */
    method FindBlock(id: seq<Octet>) returns (r: Option<nat>)
      ensures r == Find(blocks, id)
    {
      var b := 0;
      while b < |blocks|
        invariant b <= |blocks|
        invariant Find(blocks, id) == match Find(blocks[b..], id)
                                      case None => None
                                      case Some(k) => Some(k + b)
      {
        if blocks[b].idstr == id {
          return Some(b);
        }
        assert blocks[b..][1..] == blocks[b + 1..];
        b := b + 1;
      }
      return None;
    }

    method SynchronizeSizes(total: nat, s: seq<Octet>) returns (r: Parsed)
      ensures r == CheckSizes(blocks, total, s)
    {
      var remaining: nat, rest := total, s;
      while remaining != 0
        invariant CheckSizes(blocks, total, s) == CheckSizes(blocks, remaining, rest)
        decreases |rest|
      {
        var id := GetId(rest);
        if id.None? {
          return Bad(-EIO);
        }
        var (name, rest1) := id.value;
        if |rest1| < 8 {
          return Bad(-EIO);
        }
        var length := Value(rest1[..8]);
        var b := FindBlock(name);
        if b.None? {
          return Bad(-EINVAL);
        }
        if blocks[b.value].Length() != length {
          return Bad(-EINVAL);
        }
        var left: int := remaining - length;
        remaining, rest := left % TWO64, rest1[8..];
      }
      return Rest(rest);
    }

    /** ram_load for version 4: status, and the stream that is left. */
    method Load(s: seq<Octet>) returns (ret: int, rest: seq<Octet>)
      modifies this
      ensures match LoadSection(blocks, old(State()), s)
              case Loaded(st, left) => ret == 0 && State() == st && rest == left
              case Failed(code) => ret == code
    {
      hide Value, HasFlag, CheckSizes, LoadPage;
      rest := s;
      while true
        invariant LoadSection(blocks, old(State()), s) == LoadSection(blocks, State(), rest)
        decreases |rest|
      {
        if |rest| < 8 {
          return -EIO, rest;
        }
        var h := Value(rest[..8]);
        var flags := h % PAGE;
        var addr := h - flags;
        var last := HasFlag(flags, FLAG_EOS);
        var body := rest[8..];
        if HasFlag(flags, FLAG_MEM_SIZE) {
          var sizes := SynchronizeSizes(addr, body);
          if sizes.Bad? {
            return sizes.code, body;
          }
          body := sizes.rest;
        }
        var page := LoadPage(blocks, State(), addr, flags, body);
        if page.Failed? {
          return page.code, body;
        }
        mem, cur, rest := page.st.mem, page.st.cur, page.rest;
        if last {
          return 0, rest;
        }
      }
    }
  }
}
