/**
  Live block migration (block-migration.c) as a system of steps: guest writes in flight, reads of
  chunks in flight, the queue of finished reads, and the blocks sent; and the proof that the
  receiver ends with the sender's disks.
 */
module BlockMigration {
  import opened Base
  import opened DirtyTracking

  type Sector = seq<int>

  /** A sector of a device, and a chunk of a device. */
  datatype At = At(dev: nat, sector: nat)

  datatype ChunkId = ChunkId(dev: nat, chunk: nat)

  /**
    BlkMigBlock: the chunk it reads and the sectors its buffer has received so far.  `serial` numbers
    the reads in the order of their submission; the code has no such number.
   */
  datatype Block = Block(id: ChunkId, serial: nat, buf: map<nat, Sector>)

  datatype GuestWrite = GuestWrite(dev: nat, sector: nat, nb: nat, tag: nat)

  /**
    `dirty` is the dirty bitmap of all devices, `pending` the submitted reads in order of submission,
    `queue` is blk_list, `sent` is the stream, and `next` is the serial number of the next read.
   */
  datatype State = State(disk: map<At, Sector>, dirty: set<ChunkId>, writes: set<GuestWrite>,
                         pending: seq<Block>, queue: seq<Block>, sent: seq<Block>, next: nat)

  // ---- Geometry: `totals` gives each device's sectors ----------------------------------------------------

  predicate ValidAt(totals: seq<nat>, a: At) {
    a.dev < |totals| && a.sector < totals[a.dev]
  }

  predicate ValidChunk(totals: seq<nat>, c: ChunkId) {
    c.dev < |totals| && c.chunk * SECTORS_PER_CHUNK < totals[c.dev]
  }

  function ChunkOf(a: At): ChunkId {
    ChunkId(a.dev, a.sector / SECTORS_PER_CHUNK)
  }

  ghost predicate Full(totals: seq<nat>, b: Block) {
    forall s: nat :: ValidAt(totals, At(b.id.dev, s)) && ChunkOf(At(b.id.dev, s)) == b.id ==> s in b.buf
  }

  predicate Covers(w: GuestWrite, a: At) {
    w.dev == a.dev && w.sector <= a.sector < w.sector + w.nb
  }

  // ---- Steps -----------------------------------------------------------------------------------------------

  /** The guest submits a write. */
  ghost predicate Submit(totals: seq<nat>, x: State, y: State, w: GuestWrite) {
    && w !in x.writes && w.dev < |totals| && w.nb > 0 && w.sector + w.nb <= totals[w.dev]
    && y == x.(writes := x.writes + {w})
  }

  /** A sector of a write in flight reaches the disk. */
  ghost predicate Land(totals: seq<nat>, x: State, y: State, w: GuestWrite, a: At, v: Sector) {
    && w in x.writes && Covers(w, a) && ValidAt(totals, a)
    && y == x.(disk := x.disk[a := v])
  }

  /** A write completes: block_complete_cb marks the chunks it touches. */
  ghost predicate Complete(totals: seq<nat>, x: State, y: State, w: GuestWrite) {
    && w in x.writes
    && y.writes == x.writes - {w}
    && (forall c: ChunkId :: c in y.dirty <==> c in x.dirty || (c.dev == w.dev && Touches(w.sector, w.nb, c.chunk)))
    && y == x.(writes := y.writes, dirty := y.dirty)
  }

  /** The state after a chunk's read is submitted and its dirty bit reset. */
  function Submitted(x: State, c: ChunkId): State {
    x.(pending := x.pending + [Block(c, x.next, map[])], dirty := x.dirty - {c}, next := x.next + 1)
  }

  /** The bulk phase or the asynchronous dirty phase submits a read. */
  ghost predicate SubmitRead(totals: seq<nat>, x: State, y: State, c: ChunkId) {
    ValidChunk(totals, c) && y == Submitted(x, c)
  }

  /** A read in flight receives a sector. */
  ghost predicate Sample(totals: seq<nat>, x: State, y: State, k: nat, a: At) {
    && k < |x.pending| && ValidAt(totals, a) && ChunkOf(a) == x.pending[k].id && a in x.disk
    && a.sector !in x.pending[k].buf
    && y == x.(pending := x.pending[k := x.pending[k].(buf := x.pending[k].buf[a.sector := x.disk[a]])])
  }

  /** The state after read k completes. */
  function Completed(x: State, k: nat): State
    requires k < |x.pending|
  {
    x.(pending := x.pending[..k] + x.pending[k + 1..], queue := x.queue + [x.pending[k]])
  }

  /** A full read completes (blk_mig_read_cb), whichever it is. */
  ghost predicate CompleteRead(totals: seq<nat>, x: State, y: State, k: nat) {
    k < |x.pending| && Full(totals, x.pending[k]) && y == Completed(x, k)
  }

  /** flush_blks sends the head of the queue. */
  ghost predicate Send(x: State, y: State) {
    && x.queue != []
    && y == x.(queue := x.queue[1..], sent := x.sent + [x.queue[0]])
  }

  /** Stage 3 reads and sends a chunk at once, with nothing in flight and nothing queued. */
  ghost predicate SendNow(totals: seq<nat>, x: State, y: State, b: Block) {
    && x.pending == [] && x.queue == [] && x.writes == {}
    && ValidChunk(totals, b.id) && CopyOf(totals, x, b) && b.serial == x.next
    && y == x.(dirty := x.dirty - {b.id}, sent := x.sent + [b], next := x.next + 1)
  }

  ghost predicate Step(totals: seq<nat>, x: State, y: State) {
    || (exists w :: Submit(totals, x, y, w))
    || (exists w, a, v :: Land(totals, x, y, w, a, v))
    || (exists w :: Complete(totals, x, y, w))
    || (exists c :: SubmitRead(totals, x, y, c))
    || (exists k, a :: Sample(totals, x, y, k, a))
    || (exists k :: CompleteRead(totals, x, y, k))
    || Send(x, y)
    || (exists b :: SendNow(totals, x, y, b))
  }

  ghost predicate Run(totals: seq<nat>, run: seq<State>) {
    && |run| > 0
    && forall k :: 0 <= k < |run| - 1 ==> Step(totals, run[k], run[k + 1])
  }

  /** Stage 1: tracking has just been turned on, and no guest write is in flight. */
  ghost predicate Start(totals: seq<nat>, x: State) {
    && (forall a :: ValidAt(totals, a) ==> a in x.disk)
    && x.dirty == {} && x.writes == {} && x.pending == [] && x.queue == [] && x.sent == []
  }

  // ---- The last read of a chunk -----------------------------------------------------------------------------

  /** The last block of that chunk in the sequence. */
  function LastOf(blocks: seq<Block>, c: ChunkId): Option<Block> {
    if blocks == [] then None
    else if blocks[|blocks| - 1].id == c then Some(blocks[|blocks| - 1])
    else LastOf(blocks[..|blocks| - 1], c)
  }

  function OrElse<T>(x: Option<T>, y: Option<T>): Option<T> {
    if x.Some? then x else y
  }

  lemma {:induction false} LastOfConcat(a: seq<Block>, b: seq<Block>, c: ChunkId)
    ensures LastOf(a + b, c) == OrElse(LastOf(b, c), LastOf(a, c))
    decreases |b|
  {
    if b == [] {
      assert a + b == a;
    } else {
      var n := |b| - 1;
      assert (a + b)[..|a + b| - 1] == a + b[..n];
      LastOfConcat(a, b[..n], c);
    }
  }

  lemma LastOfOne(b: Block, c: ChunkId)
    ensures LastOf([b], c) == if b.id == c then Some(b) else None
  {
    assert [b][..0] == [];
  }

  lemma {:induction false} LastOfAbsent(blocks: seq<Block>, c: ChunkId)
    requires forall j :: 0 <= j < |blocks| ==> blocks[j].id != c
    ensures LastOf(blocks, c) == None
  {
    if blocks != [] {
      LastOfAbsent(blocks[..|blocks| - 1], c);
    }
  }

  lemma {:induction false} LastOfId(blocks: seq<Block>, c: ChunkId)
    ensures LastOf(blocks, c).Some? ==> LastOf(blocks, c).value.id == c
    ensures LastOf(blocks, c).Some? ==> LastOf(blocks, c).value in blocks
  {
    if blocks != [] && blocks[|blocks| - 1].id != c {
      LastOfId(blocks[..|blocks| - 1], c);
    }
  }

  /** Splitting around one element. */
  lemma LastOfAround(blocks: seq<Block>, k: nat, c: ChunkId)
    requires k < |blocks|
    ensures LastOf(blocks, c) ==
            OrElse(LastOf(blocks[k + 1..], c),
                   OrElse(if blocks[k].id == c then Some(blocks[k]) else None, LastOf(blocks[..k], c)))
  {
    hide LastOf;
    assert blocks == blocks[..k] + ([blocks[k]] + blocks[k + 1..]);
    LastOfConcat(blocks[..k], [blocks[k]] + blocks[k + 1..], c);
    LastOfConcat([blocks[k]], blocks[k + 1..], c);
    LastOfOne(blocks[k], c);
  }

  // ---- The invariant ----------------------------------------------------------------------------------------

  /** All blocks. */
  function All(x: State): seq<Block> {
    x.sent + (x.queue + x.pending)
  }

  /** The newest read of its chunk. */
  ghost predicate IsNewest(blocks: seq<Block>, b: Block) {
    b in blocks && forall e :: e in blocks && e.id == b.id ==> e.serial <= b.serial
  }

  ghost predicate Numbered(blocks: seq<Block>, next: nat) {
    forall b :: b in blocks ==> b.serial < next
  }

  ghost predicate Stable(x: State, a: At) {
    ChunkOf(a) !in x.dirty && forall w :: w in x.writes ==> !Covers(w, a)
  }

  /** The newest read of the sector's chunk has the sector. */
  ghost predicate HasNewest(x: State, a: At, b: Block) {
    IsNewest(All(x), b) && b.id == ChunkOf(a) && a.sector in b.buf
  }

  /** Sectors that the newest read of their chunk has, and that nothing is about to change, are as on the disk. */
  ghost predicate NewestRight(totals: seq<nat>, x: State) {
    forall a, b :: ValidAt(totals, a) && a in x.disk && Stable(x, a) && HasNewest(x, a, b) ==>
                     b.buf[a.sector] == x.disk[a]
  }

  ghost predicate Invariant(totals: seq<nat>, x: State) {
    && HasDisks(totals, x.disk)
    && Numbered(All(x), x.next) && NewestRight(totals, x)
    && (forall k :: 0 <= k < |x.queue| ==> Full(totals, x.queue[k]))
    && (forall k :: 0 <= k < |x.sent| ==> Full(totals, x.sent[k]))
  }

  ghost predicate HasDisks(totals: seq<nat>, dst: map<At, Sector>) {
    forall a :: ValidAt(totals, a) ==> a in dst
  }

  lemma SubmitKeeps(totals: seq<nat>, x: State, y: State, w: GuestWrite)
    requires Invariant(totals, x) && Submit(totals, x, y, w)
    ensures Invariant(totals, y)
  {
    hide IsNewest, Full;
    assert forall a :: Stable(y, a) ==> Stable(x, a);
  }

  lemma LandKeeps(totals: seq<nat>, x: State, y: State, w: GuestWrite, a: At, v: Sector)
    requires Invariant(totals, x) && Land(totals, x, y, w, a, v)
    ensures Invariant(totals, y)
  {
    hide IsNewest, Full;
    assert !Stable(y, a) && forall e :: Stable(y, e) ==> Stable(x, e);
  }

  lemma CompleteKeeps(totals: seq<nat>, x: State, y: State, w: GuestWrite)
    requires Invariant(totals, x) && Complete(totals, x, y, w)
    ensures Invariant(totals, y)
  {
    hide IsNewest, Full;
    forall a | ValidAt(totals, a) && Covers(w, a)
      ensures ChunkOf(a) in y.dirty
    {
      TouchesMeansOverlap(w.sector, w.nb, ChunkOf(a).chunk);
    }
    assert forall a :: ValidAt(totals, a) && Stable(y, a) ==> Stable(x, a);
  }

  /** A new read is the newest of its chunk, and the others stay what they are. */
  lemma NewestAppend(blocks: seq<Block>, b: Block, e: Block)
    requires Numbered(blocks, b.serial) && IsNewest(blocks + [b], e)
    ensures if e.id == b.id then e == b else IsNewest(blocks, e)
  {
    assert b in blocks + [b];
    assert forall f :: f in blocks ==> f in blocks + [b];
  }

  lemma SubmitReadKeeps(totals: seq<nat>, x: State, y: State, c: ChunkId)
    requires Invariant(totals, x) && SubmitRead(totals, x, y, c)
    ensures Invariant(totals, y)
  {
    hide IsNewest, Full;
    var blank := Block(c, x.next, map[]);
    assert All(y) == All(x) + [blank];
    forall a, b | ValidAt(totals, a) && Stable(y, a) && IsNewest(All(y), b) && b.id == ChunkOf(a) && a.sector in b.buf
      ensures b.buf[a.sector] == y.disk[a]
    {
      NewestAppend(All(x), blank, b);
      assert b.id != c;
      assert Stable(x, a);
    }
  }

  /** A read that has received a sector is the newest if it was before. */
  lemma NewestSampled(blocks: seq<Block>, n: nat, fuller: Block, e: Block)
    requires n < |blocks| && fuller.id == blocks[n].id && fuller.serial == blocks[n].serial
    requires IsNewest(blocks[n := fuller], e)
    ensures IsNewest(blocks, e) || (e == fuller && IsNewest(blocks, blocks[n]))
  {
    var after := blocks[n := fuller];
    forall f | f in blocks
      ensures exists g :: g in after && g.id == f.id && g.serial == f.serial
    {
      var j :| 0 <= j < |blocks| && blocks[j] == f;
      assert after[j] in after;
    }
    var i :| 0 <= i < |after| && after[i] == e;
    if i != n {
      assert blocks[i] == e;
    }
  }

  lemma SampleKeeps(totals: seq<nat>, x: State, y: State, k: nat, a: At)
    requires Invariant(totals, x) && Sample(totals, x, y, k, a)
    ensures Invariant(totals, y)
  {
    hide IsNewest, Full;
    var n := |x.sent| + |x.queue| + k;
    var fuller := y.pending[k];
    assert All(y) == All(x)[n := fuller] && All(x)[n] == x.pending[k];
    forall b | b in All(y)
      ensures b.serial < y.next
    {
      var i :| 0 <= i < |All(y)| && All(y)[i] == b;
      assert All(x)[i] in All(x);
    }
    forall e, b | ValidAt(totals, e) && Stable(y, e) && IsNewest(All(y), b) && b.id == ChunkOf(e) && e.sector in b.buf
      ensures b.buf[e.sector] == y.disk[e]
    {
      NewestSampled(All(x), n, fuller, b);
      assert Stable(x, e);
    }
  }

  lemma CompletedMembers(x: State, k: nat, b: Block)
    requires k < |x.pending|
    ensures b in All(Completed(x, k)) <==> b in All(x)
  {
    var p := x.pending;
    assert p == p[..k] + [p[k]] + p[k + 1..];
  }

  lemma CompletedNewest(x: State, k: nat, b: Block)
    requires k < |x.pending|
    ensures IsNewest(All(Completed(x, k)), b) <==> IsNewest(All(x), b)
  {
    hide All, Completed;
    forall e
      ensures e in All(Completed(x, k)) <==> e in All(x)
    {
      CompletedMembers(x, k, e);
    }
  }

  lemma CompleteReadKeeps(totals: seq<nat>, x: State, y: State, k: nat)
    requires Invariant(totals, x) && CompleteRead(totals, x, y, k)
    ensures Invariant(totals, y)
  {
    hide IsNewest, Full, All;
    forall b
      ensures IsNewest(All(y), b) <==> IsNewest(All(x), b)
      ensures b in All(y) <==> b in All(x)
    {
      CompletedNewest(x, k, b);
      CompletedMembers(x, k, b);
    }
    assert forall a :: Stable(y, a) <==> Stable(x, a);
  }

  lemma SendKeeps(totals: seq<nat>, x: State, y: State)
    requires Invariant(totals, x) && Send(x, y)
    ensures Invariant(totals, y)
  {
    hide IsNewest, Full;
    assert All(y) == All(x);
    assert forall a :: Stable(y, a) <==> Stable(x, a);
  }

  lemma SendNowKeeps(totals: seq<nat>, x: State, y: State, b: Block)
    requires Invariant(totals, x) && SendNow(totals, x, y, b)
    ensures Invariant(totals, y)
  {
    hide IsNewest;
    assert All(x) == x.sent && All(y) == x.sent + [b];
    forall a, e | ValidAt(totals, a) && Stable(y, a) && IsNewest(All(y), e) && e.id == ChunkOf(a) && a.sector in e.buf
      ensures e.buf[a.sector] == y.disk[a]
    {
      NewestAppend(All(x), b, e);
      if e.id != b.id {
        assert Stable(x, a);
      }
    }
  }

  lemma StepKeeps(totals: seq<nat>, x: State, y: State)
    requires Invariant(totals, x) && Step(totals, x, y)
    ensures Invariant(totals, y)
  {
    hide Invariant, Submit, Land, Complete, SubmitRead, Sample, CompleteRead, Send, SendNow;
    if w :| Submit(totals, x, y, w) {
      SubmitKeeps(totals, x, y, w);
    } else if w, a, v :| Land(totals, x, y, w, a, v) {
      LandKeeps(totals, x, y, w, a, v);
    } else if w :| Complete(totals, x, y, w) {
      CompleteKeeps(totals, x, y, w);
    } else if c :| SubmitRead(totals, x, y, c) {
      SubmitReadKeeps(totals, x, y, c);
    } else if k, a :| Sample(totals, x, y, k, a) {
      SampleKeeps(totals, x, y, k, a);
    } else if k :| CompleteRead(totals, x, y, k) {
      CompleteReadKeeps(totals, x, y, k);
    } else if Send(x, y) {
      SendKeeps(totals, x, y);
    } else {
      var b :| SendNow(totals, x, y, b);
      SendNowKeeps(totals, x, y, b);
    }
  }

  /** Some run leads from x to y. */
  ghost predicate Reach(totals: seq<nat>, x: State, y: State) {
    exists run :: Run(totals, run) && run[0] == x && run[|run| - 1] == y
  }

  lemma ReachSelf(totals: seq<nat>, x: State)
    ensures Reach(totals, x, x)
  {
    assert Run(totals, [x]);
  }

  lemma ReachStep(totals: seq<nat>, x: State, y: State, z: State)
    requires Reach(totals, x, y) && Step(totals, y, z)
    ensures Reach(totals, x, z)
  {
    hide Step;
    var run :| Run(totals, run) && run[0] == x && run[|run| - 1] == y;
    assert Run(totals, run + [z]);
  }

  lemma {:induction false} ReachKeepsRun(totals: seq<nat>, run: seq<State>)
    requires Run(totals, run) && Invariant(totals, run[0])
    ensures Invariant(totals, run[|run| - 1])
    decreases |run|
  {
    hide Step, Invariant;
    if |run| > 1 {
      var n := |run| - 1;
      ReachKeepsRun(totals, run[..n]);
      StepKeeps(totals, run[n - 1], run[n]);
    }
  }

  lemma ReachKeeps(totals: seq<nat>, x: State, y: State)
    requires Reach(totals, x, y) && Invariant(totals, x)
    ensures Invariant(totals, y)
  {
    hide Step, Invariant;
    var run :| Run(totals, run) && run[0] == x && run[|run| - 1] == y;
    ReachKeepsRun(totals, run);
  }

  lemma StartHolds(totals: seq<nat>, x: State)
    requires Start(totals, x)
    ensures Invariant(totals, x)
  {}

  // ---- The receiver -----------------------------------------------------------------------------------------

  /** block_load writes the sectors of one block. */
  function Loaded(dst: map<At, Sector>, b: Block): map<At, Sector> {
    map a | a in dst :: if ChunkOf(a) == b.id && a.sector in b.buf then b.buf[a.sector] else dst[a]
  }

  function LoadedAll(dst: map<At, Sector>, blocks: seq<Block>): (r: map<At, Sector>)
    ensures r.Keys == dst.Keys
  {
    if blocks == [] then dst
    else Loaded(LoadedAll(dst, blocks[..|blocks| - 1]), blocks[|blocks| - 1])
  }

  /** The receiver holds, for each sector, what the last block of its chunk brought. */
  lemma {:induction false} LoadedIsLast(totals: seq<nat>, dst: map<At, Sector>, blocks: seq<Block>, a: At)
    requires a in dst && ValidAt(totals, a)
    requires forall k :: 0 <= k < |blocks| ==> Full(totals, blocks[k])
    ensures match LastOf(blocks, ChunkOf(a))
            case None => LoadedAll(dst, blocks)[a] == dst[a]
            case Some(b) => a.sector in b.buf && LoadedAll(dst, blocks)[a] == b.buf[a.sector]
  {
    if blocks != [] {
      var n := |blocks| - 1;
      assert Full(totals, blocks[n]);
      LoadedIsLast(totals, dst, blocks[..n], a);
    }
  }

  // ---- Results ----------------------------------------------------------------------------------------------

  /** Stage 3 is over: nothing in flight, nothing queued, nothing dirty, and every chunk was sent. */
  ghost predicate Finished(totals: seq<nat>, x: State) {
    && x.pending == [] && x.queue == [] && x.writes == {}
    && (forall c :: ValidChunk(totals, c) ==> c !in x.dirty && LastOf(x.sent, c).Some?)
  }

  ghost predicate SameDisks(totals: seq<nat>, disk: map<At, Sector>, copy: map<At, Sector>) {
    forall a :: ValidAt(totals, a) ==> a in disk && a in copy && copy[a] == disk[a]
  }

  ghost predicate ExactForAll(totals: seq<nat>, z: State) {
    forall dst :: HasDisks(totals, dst) ==> SameDisks(totals, z.disk, LoadedAll(dst, z.sent))
  }

  /** The last block sent of every clean chunk has the contents of the newest read of the chunk. */
  ghost predicate SentNewest(totals: seq<nat>, x: State) {
    forall a, b :: ValidAt(totals, a) && ChunkOf(a) !in x.dirty && IsNewest(All(x), b) && b.id == ChunkOf(a) ==>
      match LastOf(x.sent, ChunkOf(a))
      case None => false
      case Some(last) => a.sector in last.buf && a.sector in b.buf && last.buf[a.sector] == b.buf[a.sector]
  }

  /** The stream has brought a sector as it is on the disk. */
  ghost predicate BroughtRight(x: State, a: At) {
    a in x.disk &&
    match LastOf(x.sent, ChunkOf(a))
    case None => false
    case Some(last) => a.sector in last.buf && last.buf[a.sector] == x.disk[a]
  }

  ghost predicate SentRight(totals: seq<nat>, x: State) {
    forall a :: ValidAt(totals, a) && ChunkOf(a) !in x.dirty ==> BroughtRight(x, a)
  }

  lemma {:induction false} NewestExists(blocks: seq<Block>, c: ChunkId) returns (b: Block)
    requires LastOf(blocks, c).Some?
    ensures IsNewest(blocks, b) && b.id == c
  {
    var n := |blocks| - 1;
    b := blocks[n];
    if LastOf(blocks[..n], c).Some? {
      var e := NewestExists(blocks[..n], c);
      assert e in blocks;
      if b.id != c || b.serial < e.serial {
        b := e;
      }
    } else {
      NoneOf(blocks[..n], c);
    }
    forall f | f in blocks && f.id == c
      ensures f.serial <= b.serial
    {
      assert f == blocks[n] || f in blocks[..n];
    }
  }

  lemma {:induction false} NoneOf(blocks: seq<Block>, c: ChunkId)
    requires LastOf(blocks, c).None?
    ensures forall f :: f in blocks ==> f.id != c
  {
    if blocks != [] {
      var n := |blocks| - 1;
      NoneOf(blocks[..n], c);
      assert forall f :: f in blocks ==> f == blocks[n] || f in blocks[..n];
    }
  }

  /** Nothing is in flight any more, and every chunk has been read. */
  ghost predicate Settled(totals: seq<nat>, x: State) {
    && Invariant(totals, x) && x.pending == [] && x.writes == {}
    && forall c :: ValidChunk(totals, c) ==> LastOf(All(x), c).Some?
  }

  /** Then the newest read of a clean chunk is complete and right. */
  lemma NewestIsRight(totals: seq<nat>, x: State, a: At, b: Block)
    requires Settled(totals, x) && ValidAt(totals, a) && ChunkOf(a) !in x.dirty
    requires IsNewest(All(x), b) && b.id == ChunkOf(a)
    ensures a.sector in b.buf && b.buf[a.sector] == x.disk[a]
  {
    hide LastOf;
    assert Stable(x, a);
    assert Full(totals, b) by {
      assert b in x.sent || b in x.queue;
    }
    assert At(b.id.dev, a.sector) == a;
  }

  lemma NewestMeansRight(totals: seq<nat>, x: State)
    requires Settled(totals, x)
    ensures SentNewest(totals, x) <==> SentRight(totals, x)
  {
    hide LastOf, IsNewest, Invariant;
    forall a, b | ValidAt(totals, a) && ChunkOf(a) !in x.dirty && IsNewest(All(x), b) && b.id == ChunkOf(a)
      ensures a.sector in b.buf && a in x.disk && b.buf[a.sector] == x.disk[a]
    {
      NewestIsRight(totals, x, a, b);
      SettledHasDisks(totals, x);
    }
    forall a | ValidAt(totals, a)
      ensures exists b :: IsNewest(All(x), b) && b.id == ChunkOf(a)
    {
      assert ValidChunk(totals, ChunkOf(a));
      var b := NewestExists(All(x), ChunkOf(a));
    }
  }

  lemma SettledHasDisks(totals: seq<nat>, x: State)
    requires Settled(totals, x)
    ensures HasDisks(totals, x.disk) && forall k :: 0 <= k < |x.sent| ==> Full(totals, x.sent[k])
  {}

  /** Stage 3 sends every dirty chunk; the receiver is right if it has the clean ones. */
  lemma CleanDecide(totals: seq<nat>, x: State, z: State, dst: map<At, Sector>)
    requires Settled(totals, x) && HasDisks(totals, dst)
    requires SentNow(totals, x.(queue := []), z) && forall c :: ValidChunk(totals, c) ==> c !in z.dirty
    ensures SameDisks(totals, z.disk, LoadedAll(dst, z.sent)) <==>
              forall a :: ValidAt(totals, a) && ChunkOf(a) !in x.dirty ==> LoadedAll(dst, x.sent)[a] == x.disk[a]
  {
    hide LastOf, Loaded, Invariant;
    SettledHasDisks(totals, x);
    forall a | ValidAt(totals, a)
      ensures LoadedAll(dst, z.sent)[a] == if ChunkOf(a) in x.dirty then x.disk[a] else LoadedAll(dst, x.sent)[a]
    {
      assert ValidChunk(totals, ChunkOf(a));
      SentNowLoads(totals, x.(queue := []), z, dst, a);
    }
  }

  /** For a sector that the stream does not bring right, there is a receiver that ends up wrong. */
  lemma WrongReceiver(totals: seq<nat>, x: State, a: At) returns (dst: map<At, Sector>)
    requires Settled(totals, x) && ValidAt(totals, a) && !BroughtRight(x, a)
    ensures HasDisks(totals, dst) && LoadedAll(dst, x.sent)[a] != x.disk[a]
  {
    hide LastOf, Invariant;
    SettledHasDisks(totals, x);
    dst := x.disk[a := x.disk[a] + [0]];
    LoadedIsLast(totals, dst, x.sent, a);
  }

  /**
    When the migration is exact, whatever the order in which reads complete and whatever stage 3's
    flush leaves in the queue, where blk_mig_cleanup frees it.  x is the sender after that flush, z the
    sender once every dirty chunk has been sent.  The stream makes every receiver exact if and only if
    the last block sent of every clean chunk has the contents of the newest read of that chunk.
   */
  lemma ExactlyWhenNewest(totals: seq<nat>, x: State, z: State)
    requires Settled(totals, x)
    requires SentNow(totals, x.(queue := []), z) && forall c :: ValidChunk(totals, c) ==> c !in z.dirty
    ensures ExactForAll(totals, z) <==> SentNewest(totals, x)
  {
    hide LastOf, LoadedAll, SentNow, SameDisks, Settled;
    NewestMeansRight(totals, x);
    SettledHasDisks(totals, x);
    if SentRight(totals, x) {
      forall dst | HasDisks(totals, dst)
        ensures SameDisks(totals, z.disk, LoadedAll(dst, z.sent))
      {
        forall a | ValidAt(totals, a) && ChunkOf(a) !in x.dirty
          ensures LoadedAll(dst, x.sent)[a] == x.disk[a]
        {
          assert BroughtRight(x, a);
          LoadedIsLast(totals, dst, x.sent, a);
        }
        CleanDecide(totals, x, z, dst);
      }
    } else {
      var a :| ValidAt(totals, a) && ChunkOf(a) !in x.dirty && !BroughtRight(x, a);
      var dst := WrongReceiver(totals, x, a);
      CleanDecide(totals, x, z, dst);
    }
  }

  /** The same for a run to the very end, with nothing left in the queue. */
  lemma FinishedExactly(totals: seq<nat>, x: State, z: State)
    requires Start(totals, x) && Reach(totals, x, z) && Finished(totals, z)
    ensures ExactForAll(totals, z) <==> SentNewest(totals, z)
  {
    hide LastOf, Reach, ExactForAll, SentNewest, Invariant;
    FinishedSettled(totals, x, z);
    assert z.(queue := []) == z;
    SentNothing(totals, z);
    ExactlyWhenNewest(totals, z, z);
  }

  lemma FinishedSettled(totals: seq<nat>, x: State, z: State)
    requires Start(totals, x) && Reach(totals, x, z) && Finished(totals, z)
    ensures Settled(totals, z)
  {
    hide LastOf, Reach, Invariant;
    StartHolds(totals, x);
    ReachKeeps(totals, x, z);
    assert All(z) == z.sent;
  }

  // ---- Order ------------------------------------------------------------------------------------------------

  /** Read k is the latest of its chunk, and an earlier one is still pending. */
  predicate Overtakes(pending: seq<Block>, k: nat)
    requires k < |pending|
  {
    && (exists j :: 0 <= j < k && pending[j].id == pending[k].id)
    && (forall j :: k < j < |pending| ==> pending[j].id != pending[k].id)
  }

  /** The last block of every chunk is the newest. */
  ghost predicate NewestLast(blocks: seq<Block>) {
    forall c :: LastOf(blocks, c).Some? ==> IsNewest(blocks, LastOf(blocks, c).value)
  }

  lemma NewestLastAppend(blocks: seq<Block>, b: Block)
    requires NewestLast(blocks) && Numbered(blocks, b.serial)
    ensures NewestLast(blocks + [b])
  {
    hide LastOf;
    forall c | LastOf(blocks + [b], c).Some?
      ensures IsNewest(blocks + [b], LastOf(blocks + [b], c).value)
    {
      LastOfConcat(blocks, [b], c);
      LastOfOne(b, c);
      LastOfId(blocks, c);
    }
  }

  lemma NewestLastSampled(blocks: seq<Block>, n: nat, fuller: Block)
    requires NewestLast(blocks) && n < |blocks|
    requires fuller.id == blocks[n].id && fuller.serial == blocks[n].serial
    ensures NewestLast(blocks[n := fuller])
  {
    hide LastOf;
    var after := blocks[n := fuller];
    assert after[..n] == blocks[..n] && after[n + 1..] == blocks[n + 1..];
    forall c | LastOf(after, c).Some?
      ensures IsNewest(after, LastOf(after, c).value)
    {
      LastOfAround(blocks, n, c);
      LastOfAround(after, n, c);
      LastOfId(after, c);
      LastOfId(blocks, c);
      forall f | f in after && f.id == c
        ensures f.serial <= LastOf(after, c).value.serial
      {
        var j :| 0 <= j < |after| && after[j] == f;
        assert blocks[j] in blocks && blocks[j].serial == f.serial;
      }
    }
  }

  /** Where a completed read leaves the last block of each chunk. */
  lemma CompletedLast(x: State, k: nat, c: ChunkId)
    requires k < |x.pending|
    ensures c != x.pending[k].id ==> LastOf(All(Completed(x, k)), c) == LastOf(All(x), c)
    ensures c == x.pending[k].id && LastOf(x.pending[k + 1..], c).Some? ==>
              LastOf(All(Completed(x, k)), c) == LastOf(All(x), c)
    ensures c == x.pending[k].id && LastOf(x.pending[k + 1..], c).None? ==>
              && LastOf(All(x), c) == Some(x.pending[k])
              && LastOf(All(Completed(x, k)), c) == OrElse(LastOf(x.pending[..k], c), Some(x.pending[k]))
  {
    hide LastOf;
    var y := Completed(x, k);
    var r, before, after := x.pending[k], x.pending[..k], x.pending[k + 1..];
    LastOfConcat(x.sent, x.queue + x.pending, c);
    LastOfConcat(x.queue, x.pending, c);
    LastOfAround(x.pending, k, c);
    LastOfConcat(y.sent, y.queue + y.pending, c);
    LastOfConcat(y.queue, y.pending, c);
    LastOfConcat(x.queue, [r], c);
    LastOfOne(r, c);
    LastOfConcat(before, after, c);
  }

  /** A completed read leaves the last block of every chunk the last, unless it overtakes an earlier read. */
  lemma CompleteReadOrder(x: State, k: nat, c: ChunkId)
    requires k < |x.pending| && !Overtakes(x.pending, k)
    ensures LastOf(All(Completed(x, k)), c) == LastOf(All(x), c)
  {
    hide LastOf, Completed;
    CompletedLast(x, k, c);
    if c == x.pending[k].id && LastOf(x.pending[k + 1..], c).None? {
      NotOvertaking(x.pending, k);
    }
  }

  lemma NotOvertaking(pending: seq<Block>, k: nat)
    requires k < |pending|
    ensures !Overtakes(pending, k) <==>
              LastOf(pending[k + 1..], pending[k].id).Some? || LastOf(pending[..k], pending[k].id).None?
  {
    hide LastOf;
    var id, before, after := pending[k].id, pending[..k], pending[k + 1..];
    if j :| 0 <= j < k && pending[j].id == id {
      LastOfPresent(before, id, j);
    } else {
      LastOfAbsent(before, id);
    }
    if j :| k < j < |pending| && pending[j].id == id {
      assert after[j - (k + 1)] == pending[j];
      LastOfPresent(after, id, j - (k + 1));
    } else {
      LastOfAbsent(after, id);
    }
  }

  /** It leaves them so if and only if it overtakes none, or the one it overtakes is the same block. */
  lemma CompletionOrder(x: State, k: nat)
    requires k < |x.pending|
    ensures (forall c :: LastOf(All(Completed(x, k)), c) == LastOf(All(x), c)) <==>
              !Overtakes(x.pending, k) || LastOf(x.pending[..k], x.pending[k].id) == Some(x.pending[k])
  {
    hide LastOf, Overtakes, Completed;
    NotOvertaking(x.pending, k);
    forall c
      ensures c != x.pending[k].id ==> LastOf(All(Completed(x, k)), c) == LastOf(All(x), c)
    {
      CompletedLast(x, k, c);
    }
    CompletedLast(x, k, x.pending[k].id);
  }

  lemma NewestLastCompleted(x: State, k: nat)
    requires k < |x.pending| && !Overtakes(x.pending, k) && NewestLast(All(x))
    ensures NewestLast(All(Completed(x, k)))
  {
    hide LastOf, IsNewest, Completed, All, Overtakes;
    forall c | LastOf(All(Completed(x, k)), c).Some?
      ensures IsNewest(All(Completed(x, k)), LastOf(All(Completed(x, k)), c).value)
    {
      CompleteReadOrder(x, k, c);
      CompletedNewest(x, k, LastOf(All(x), c).value);
    }
  }

  /** A step in which no read overtakes an earlier one of its chunk. */
  ghost predicate OrderedStep(totals: seq<nat>, x: State, y: State) {
    Step(totals, x, y) && forall k :: CompleteRead(totals, x, y, k) ==> !Overtakes(x.pending, k)
  }

  ghost predicate OrderedRun(totals: seq<nat>, run: seq<State>) {
    && |run| > 0
    && forall k :: 0 <= k < |run| - 1 ==> OrderedStep(totals, run[k], run[k + 1])
  }

  lemma SampleKeepsOrder(totals: seq<nat>, x: State, y: State, k: nat, a: At)
    requires NewestLast(All(x)) && Sample(totals, x, y, k, a)
    ensures NewestLast(All(y))
  {
    hide NewestLast;
    var n := |x.sent| + |x.queue| + k;
    assert All(y) == All(x)[n := y.pending[k]] && All(x)[n] == x.pending[k];
    NewestLastSampled(All(x), n, y.pending[k]);
  }

  lemma SubmittedKeepsOrder(x: State, c: ChunkId)
    requires NewestLast(All(x)) && Numbered(All(x), x.next)
    ensures NewestLast(All(Submitted(x, c))) && Numbered(All(Submitted(x, c)), x.next + 1)
  {
    hide NewestLast;
    assert All(Submitted(x, c)) == All(x) + [Block(c, x.next, map[])];
    NewestLastAppend(All(x), Block(c, x.next, map[]));
  }

  lemma SendNowKeepsOrder(totals: seq<nat>, x: State, y: State, b: Block)
    requires NewestLast(All(x)) && Numbered(All(x), x.next) && SendNow(totals, x, y, b)
    ensures NewestLast(All(y))
  {
    hide NewestLast, CopyOf;
    assert All(y) == All(x) + [b];
    NewestLastAppend(All(x), b);
  }

  /** The other steps change no block. */
  lemma OtherStepsKeepAll(totals: seq<nat>, x: State, y: State)
    requires Step(totals, x, y)
    requires forall c :: !SubmitRead(totals, x, y, c)
    requires forall k, a :: !Sample(totals, x, y, k, a)
    requires forall k :: !CompleteRead(totals, x, y, k)
    requires forall b :: !SendNow(totals, x, y, b)
    ensures All(y) == All(x)
  {
    hide SubmitRead, Sample, CompleteRead, SendNow;
  }

  lemma OrderedKeeps(totals: seq<nat>, x: State, y: State)
    requires Invariant(totals, x) && NewestLast(All(x)) && OrderedStep(totals, x, y)
    ensures NewestLast(All(y))
  {
    hide NewestLast, Full, Overtakes, Step, NewestRight, HasDisks, Numbered, Sample, SendNow, ValidChunk, All;
    if c :| SubmitRead(totals, x, y, c) {
      SubmittedKeepsOrder(x, c);
    } else if k, a :| Sample(totals, x, y, k, a) {
      SampleKeepsOrder(totals, x, y, k, a);
    } else if k :| CompleteRead(totals, x, y, k) {
      NewestLastCompleted(x, k);
    } else if b :| SendNow(totals, x, y, b) {
      SendNowKeepsOrder(totals, x, y, b);
    } else {
      OtherStepsKeepAll(totals, x, y);
    }
  }

  lemma {:induction false} OrderedRunKeeps(totals: seq<nat>, run: seq<State>)
    requires OrderedRun(totals, run) && Start(totals, run[0])
    ensures Run(totals, run) && Invariant(totals, run[|run| - 1]) && NewestLast(All(run[|run| - 1]))
    decreases |run|
  {
    hide Step, CompleteRead, Invariant, NewestLast;
    if |run| == 1 {
      StartHolds(totals, run[0]);
      NoBlocksYet(totals, run[0]);
    } else {
      var n := |run| - 1;
      OrderedRunKeeps(totals, run[..n]);
      assert OrderedStep(totals, run[n - 1], run[n]);
      StepKeeps(totals, run[n - 1], run[n]);
      OrderedKeeps(totals, run[n - 1], run[n]);
      assert forall k :: 0 <= k < n ==> Step(totals, run[k], run[k + 1]) by {
        assert forall k :: 0 <= k < n ==> OrderedStep(totals, run[k], run[k + 1]);
      }
    }
  }

  lemma NoBlocksYet(totals: seq<nat>, x: State)
    requires Start(totals, x)
    ensures NewestLast(All(x))
  {
    assert All(x) == [];
  }

  /** In order, and with nothing left in the queue, the last block sent of a clean chunk is the newest. */
  lemma InOrderIsRight(totals: seq<nat>, x: State)
    requires Settled(totals, x) && x.queue == [] && NewestLast(All(x))
    ensures SentNewest(totals, x)
  {
    hide LastOf, IsNewest, Invariant;
    assert All(x) == x.sent;
    forall a | ValidAt(totals, a) && ChunkOf(a) !in x.dirty
      ensures BroughtRight(x, a)
    {
      assert ValidChunk(totals, ChunkOf(a));
      LastOfId(x.sent, ChunkOf(a));
      NewestIsRight(totals, x, a, LastOf(x.sent, ChunkOf(a)).value);
      SettledHasDisks(totals, x);
    }
    NewestMeansRight(totals, x);
  }

  /**
    Every run that starts with no guest write in flight, in which no latest read of a chunk overtakes
    an earlier one, and that sends everything, leaves the receiver with the sender's final disks.
   */
  lemma MigrationIsExact(totals: seq<nat>, run: seq<State>, dst: map<At, Sector>)
    requires OrderedRun(totals, run) && Start(totals, run[0]) && Finished(totals, run[|run| - 1])
    requires HasDisks(totals, dst)
    ensures SameDisks(totals, run[|run| - 1].disk, LoadedAll(dst, run[|run| - 1].sent))
  {
    hide OrderedStep, Step, Settled, SameDisks, SentNewest, NewestLast, Start, LastOf;
    var z := run[|run| - 1];
    OrderedRunKeeps(totals, run);
    assert Reach(totals, run[0], z);
    FinishedSettled(totals, run[0], z);
    InOrderIsRight(totals, z);
    FinishedExactly(totals, run[0], z);
  }

  /** The block holds its chunk as it is on the disk. */
  ghost predicate CopyOf(totals: seq<nat>, x: State, b: Block) {
    && Full(totals, b)
    && (forall a :: ValidAt(totals, a) && ChunkOf(a) == b.id ==> a in x.disk && b.buf[a.sector] == x.disk[a])
  }

  /** Any number of immediate sends, each of a dirty chunk. */
  ghost predicate SentNow(totals: seq<nat>, x: State, z: State) {
    && z == x.(dirty := z.dirty, sent := z.sent, next := z.next)
    && x.sent <= z.sent
    && (forall k :: |x.sent| <= k < |z.sent| ==> z.sent[k].id in x.dirty && CopyOf(totals, x, z.sent[k]))
    && (forall c :: ValidChunk(totals, c) && c in x.dirty && c !in z.dirty ==>
          exists k :: |x.sent| <= k < |z.sent| && z.sent[k].id == c)
  }

  lemma SentNothing(totals: seq<nat>, x: State)
    ensures SentNow(totals, x, x)
  {}

  /** Immediate sends bring the dirty chunks that they clear and leave the others alone. */
  lemma SentNowLoads(totals: seq<nat>, x: State, z: State, dst: map<At, Sector>, a: At)
    requires SentNow(totals, x, z) && ValidAt(totals, a) && a in dst && a in x.disk
    requires forall k :: 0 <= k < |x.sent| ==> Full(totals, x.sent[k])
    requires ChunkOf(a) !in z.dirty
    ensures LoadedAll(dst, z.sent)[a] == if ChunkOf(a) in x.dirty then x.disk[a] else LoadedAll(dst, x.sent)[a]
  {
    hide LastOf, CopyOf, Full, LoadedAll;
    var c, more := ChunkOf(a), z.sent[|x.sent|..];
    assert z.sent == x.sent + more;
    LastOfConcat(x.sent, more, c);
    LoadedIsLast(totals, dst, x.sent, a);
    forall k | 0 <= k < |z.sent|
      ensures Full(totals, z.sent[k])
    {
      if k >= |x.sent| {
        CopyIsFull(totals, x, z.sent[k]);
      }
    }
    LoadedIsLast(totals, dst, z.sent, a);
    if c in x.dirty {
      assert ValidChunk(totals, c);
      var k :| |x.sent| <= k < |z.sent| && z.sent[k].id == c;
      LastOfPresent(more, c, k - |x.sent|);
      LastOfId(more, c);
      CopyHolds(totals, x, LastOf(more, c).value, a);
    } else {
      LastOfAbsent(more, c);
    }
  }

  lemma CopyIsFull(totals: seq<nat>, x: State, b: Block)
    requires CopyOf(totals, x, b)
    ensures Full(totals, b)
  {}

  lemma CopyHolds(totals: seq<nat>, x: State, b: Block, a: At)
    requires CopyOf(totals, x, b) && ValidAt(totals, a) && ChunkOf(a) == b.id
    ensures a in x.disk && a.sector in b.buf && b.buf[a.sector] == x.disk[a]
  {}

  lemma {:induction false} LastOfPresent(blocks: seq<Block>, c: ChunkId, k: nat)
    requires k < |blocks| && blocks[k].id == c
    ensures LastOf(blocks, c).Some?
  {
    var n := |blocks| - 1;
    if blocks[n].id != c {
      LastOfPresent(blocks[..n], c, k);
    }
  }

  // ---- Two runs that go wrong -------------------------------------------------------------------------------

  /** A run whose stage 3 strands a block: the receiver never gets the only sector there is. */
  lemma StrandedExample(v: Sector, was: Sector)
    requires v != was
    ensures var totals, a := [1], At(0, 0);
            var x0 := State(map[a := v], {}, {}, [], [], [], 0);
            exists x :: Start(totals, x0) && Reach(totals, x0, x) && x.queue != [] && x.dirty == {} &&
                        x.pending == [] && x.writes == {} &&
                        !SameDisks(totals, x.disk, LoadedAll(map[a := was], x.(queue := []).sent))
  {
    var totals, a, c := [1], At(0, 0), ChunkId(0, 0);
    var x0 := State(map[a := v], {}, {}, [], [], [], 0);
    var x1 := x0.(pending := [Block(c, 0, map[])], next := 1);
    var b := Block(c, 0, map[0 := v]);
    var x2 := x0.(pending := [b], next := 1);
    var x3 := x0.(queue := [b], next := 1);
    assert Start(totals, x0);
    ReachSelf(totals, x0);
    assert SubmitRead(totals, x0, x1, c);
    ReachStep(totals, x0, x0, x1);
    assert Sample(totals, x1, x2, 0, a);
    ReachStep(totals, x0, x1, x2);
    assert CompleteRead(totals, x2, x3, 0);
    ReachStep(totals, x0, x2, x3);
    assert x3.(queue := []).sent == [];
    assert ValidAt(totals, a) && LoadedAll(map[a := was], [])[a] == was;
  }

  /** The states of a run in which the second read of the only chunk overtakes the first. */
  function Overtaking(u: Sector, v: Sector): seq<State> {
    var a, c, w := At(0, 0), ChunkId(0, 0), GuestWrite(0, 0, 1, 0);
    var stale, good, blank := Block(c, 0, map[0 := u]), Block(c, 1, map[0 := v]), Block(c, 1, map[]);
    var x := State(map[a := u], {}, {}, [], [], [], 1);
    var y := State(map[a := v], {}, {}, [], [], [], 2);
    [x.(next := 0),                                     // stage 1
     x.(pending := [Block(c, 0, map[])]),               // the bulk phase reads the chunk
     x.(pending := [stale]),
     x.(pending := [stale], writes := {w}),             // the guest writes it
     y.(pending := [stale], writes := {w}, next := 1),
     y.(pending := [stale], dirty := {c}, next := 1),
     y.(pending := [stale, blank]),                     // the dirty phase reads it again
     y.(pending := [stale, good]),
     y.(pending := [stale], queue := [good]),           // the second read completes first
     y.(queue := [good, stale]),
     y.(queue := [stale], sent := [good]),
     y.(sent := [good, stale])]
  }

  lemma OvertakingReads(u: Sector, v: Sector)
    ensures var totals, r := [1], Overtaking(u, v);
            && Step(totals, r[0], r[1]) && Step(totals, r[1], r[2]) && Step(totals, r[6], r[7])
            && Step(totals, r[7], r[8]) && Step(totals, r[8], r[9])
  {
    hide Land, Complete, Submit, Send, SendNow, Full;
    var totals, r, a, c := [1], Overtaking(u, v), At(0, 0), ChunkId(0, 0);
    assert SubmitRead(totals, r[0], r[1], c);
    assert Sample(totals, r[1], r[2], 0, a);
    assert Sample(totals, r[6], r[7], 1, a);
    FullOne(0, u);
    FullOne(1, v);
    assert CompleteRead(totals, r[7], r[8], 1);
    assert CompleteRead(totals, r[8], r[9], 0);
  }

  lemma FullOne(serial: nat, v: Sector)
    ensures Full([1], Block(ChunkId(0, 0), serial, map[0 := v]))
  {}

  lemma OvertakingWrites(u: Sector, v: Sector)
    ensures var totals, r := [1], Overtaking(u, v);
            && Step(totals, r[2], r[3]) && Step(totals, r[3], r[4]) && Step(totals, r[4], r[5])
            && Step(totals, r[5], r[6]) && Step(totals, r[9], r[10]) && Step(totals, r[10], r[11])
  {
    hide Sample, CompleteRead, SendNow, Full;
    var totals, r, a, c, w := [1], Overtaking(u, v), At(0, 0), ChunkId(0, 0), GuestWrite(0, 0, 1, 0);
    assert Submit(totals, r[2], r[3], w);
    assert Land(totals, r[3], r[4], w, a, v);
    assert Complete(totals, r[4], r[5], w);
    assert SubmitRead(totals, r[5], r[6], c);
    assert Send(r[9], r[10]);
    assert Send(r[10], r[11]);
  }

  lemma OvertakingRun(u: Sector, v: Sector)
    ensures |Overtaking(u, v)| == 12 && Run([1], Overtaking(u, v))
  {
    assert |Overtaking(u, v)| == 12;
    hide Step, Overtaking;
    OvertakingReads(u, v);
    OvertakingWrites(u, v);
  }

  lemma OvertakingEnd(u: Sector, v: Sector, dst: map<At, Sector>)
    requires HasDisks([1], dst)
    ensures var z := Overtaking(u, v)[11];
            Finished([1], z) && z.disk[At(0, 0)] == v && LoadedAll(dst, z.sent)[At(0, 0)] == u
  {
    hide Full;
    var z, a, c := Overtaking(u, v)[11], At(0, 0), ChunkId(0, 0);
    FullOne(0, u);
    FullOne(1, v);
    assert LastOf(z.sent, c) == Some(z.sent[1]);
    LoadedIsLast([1], dst, z.sent, a);
    assert forall e :: ValidChunk([1], e) ==> e == c;
  }

  /**
    The bulk read of a chunk is still pending when the dirty phase reads the chunk again, the second
    read completes first, and nothing is left dirty, queued or pending; but every receiver has the old
    contents.
   */
  lemma OvertakingExample(u: Sector, v: Sector, dst: map<At, Sector>)
    requires u != v && HasDisks([1], dst)
    ensures var r := Overtaking(u, v);
            && |r| == 12 && Run([1], r) && Start([1], r[0]) && Finished([1], r[11])
            && !SameDisks([1], r[11].disk, LoadedAll(dst, r[11].sent))
  {
    assert Start([1], Overtaking(u, v)[0]);
    hide Run, Start, Finished, LoadedAll, Overtaking;
    OvertakingRun(u, v);
    OvertakingEnd(u, v, dst);
    assert ValidAt([1], At(0, 0));
  }

  // ---- One read of a chunk at a time ------------------------------------------------------------------------

  ghost predicate Reading(pending: seq<Block>, c: ChunkId) {
    exists k :: 0 <= k < |pending| && pending[k].id == c
  }

  /** At most one read of each chunk is pending. */
  ghost predicate Single(pending: seq<Block>) {
    forall j, k :: 0 <= j < k < |pending| ==> pending[j].id != pending[k].id
  }

  /** A step in which a chunk is read only while no read of it is pending. */
  ghost predicate GuardedStep(totals: seq<nat>, x: State, y: State) {
    Step(totals, x, y) && forall c :: SubmitRead(totals, x, y, c) ==> !Reading(x.pending, c)
  }

  ghost predicate GuardedRun(totals: seq<nat>, run: seq<State>) {
    && |run| > 0
    && forall k :: 0 <= k < |run| - 1 ==> GuardedStep(totals, run[k], run[k + 1])
  }

  lemma SingleRest(pending: seq<Block>, k: nat)
    requires k < |pending| && Single(pending)
    ensures Single(pending[..k] + pending[k + 1..])
  {}

  /** Then no read can overtake another. */
  lemma GuardedIsOrdered(totals: seq<nat>, x: State, y: State)
    requires Single(x.pending) && GuardedStep(totals, x, y)
    ensures OrderedStep(totals, x, y) && Single(y.pending)
  {
    hide Full, CopyOf, Touches, Covers, ValidAt, ValidChunk;
    if k :| CompleteRead(totals, x, y, k) {
      SingleRest(x.pending, k);
    }
  }

  lemma {:induction false} GuardedIsRun(totals: seq<nat>, run: seq<State>)
    requires GuardedRun(totals, run) && Single(run[0].pending)
    ensures OrderedRun(totals, run) && Single(run[|run| - 1].pending)
    decreases |run|
  {
    hide OrderedStep, GuardedStep;
    if |run| > 1 {
      var n := |run| - 1;
      GuardedIsRun(totals, run[..n]);
      GuardedIsOrdered(totals, run[n - 1], run[n]);
      forall k | 0 <= k < n
        ensures OrderedStep(totals, run[k], run[k + 1])
      {
        if k < n - 1 {
          assert run[..n][k] == run[k] && run[..n][k + 1] == run[k + 1];
        }
      }
    }
  }

  /**
    With reads completing in any order, the migration is exact when a chunk is read only while no
    read of it is pending.
   */
  lemma GuardedMigrationIsExact(totals: seq<nat>, run: seq<State>, dst: map<At, Sector>)
    requires GuardedRun(totals, run) && Start(totals, run[0]) && Finished(totals, run[|run| - 1])
    requires HasDisks(totals, dst)
    ensures SameDisks(totals, run[|run| - 1].disk, LoadedAll(dst, run[|run| - 1].sent))
  {
    hide OrderedStep, GuardedStep, Finished, SameDisks;
    GuardedIsRun(totals, run);
    MigrationIsExact(totals, run, dst);
  }
}
