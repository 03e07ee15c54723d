/**
  The saver of block-migration.c as an object: bulk phase, asynchronous dirty phase, flush of the
  send queue and the final drain, and the guest and the disks around it.  Every method's effect is a
  sequence of the steps of BlockMigration.
 */
module BlockSave {
  import opened Base
  import opened DirtyTracking
  import opened BlockMigration
  import opened AioBitmap

  function ChunkStart(c: ChunkId): nat { c.chunk * SECTORS_PER_CHUNK }

  /** What the guest and the disks may do at any moment outside the saver, and while it waits. */
  datatype Outside =
    | SubmitWrite(w: GuestWrite)
    | LandSector(w: GuestWrite, a: At, v: Sector)
    | CompleteWrite(w: GuestWrite)
    | ReadSector(k: nat, s: nat)
    | FinishRead(k: nat)

  predicate NoSubmission(events: seq<Outside>) {
    forall n :: 0 <= n < |events| ==> !events[n].SubmitWrite?
  }

  /** Sector s is one that pending read k still waits for. */
  predicate Awaits(totals: seq<nat>, pending: seq<Block>, k: nat, s: nat) {
    && k < |pending| && s !in pending[k].buf
    && ValidAt(totals, At(pending[k].id.dev, s)) && ChunkOf(At(pending[k].id.dev, s)) == pending[k].id
  }

  /** What an event does; one that cannot happen does nothing. */
  ghost predicate Happened(totals: seq<nat>, x: State, y: State, e: Outside) {
    match e
    case SubmitWrite(w) =>
      y == if w !in x.writes && w.dev < |totals| && w.nb > 0 && w.sector + w.nb <= totals[w.dev]
           then x.(writes := x.writes + {w}) else x
    case LandSector(w, a, v) =>
      y == if w in x.writes && Covers(w, a) && ValidAt(totals, a) then x.(disk := x.disk[a := v]) else x
    case CompleteWrite(w) =>
      if w in x.writes then
        && y == x.(writes := x.writes - {w}, dirty := y.dirty)
        && forall c :: c in y.dirty <==> c in x.dirty || (c.dev == w.dev && Touches(w.sector, w.nb, c.chunk))
      else y == x
    case ReadSector(k, s) =>
      if Awaits(totals, x.pending, k, s) then
        && |y.pending| == |x.pending| && y == x.(pending := x.pending[k := y.pending[k]])
        && s in y.pending[k].buf
      else y == x
    case FinishRead(k) =>
      if k < |x.pending| then
        && |y.pending| == |x.pending| - 1 && |y.queue| == |x.queue| + 1
        && y == x.(pending := y.pending, queue := x.queue + [y.queue[|x.queue|]])
        && y.queue[|x.queue|].id == x.pending[k].id && Full(totals, y.queue[|x.queue|])
      else y == x
  }

  lemma NothingHappened(totals: seq<nat>, x: State)
    ensures HappenedAll(totals, [x], [])
  {}

  /** All the events, in turn. */
  ghost predicate HappenedAll(totals: seq<nat>, trace: seq<State>, events: seq<Outside>) {
    && |trace| == |events| + 1
    && forall n :: 0 <= n < |events| ==> Happened(totals, trace[n], trace[n + 1], events[n])
  }

  ghost predicate Cursors(totals: seq<nat>, cur: seq<nat>, done: seq<bool>) {
    && |cur| == |done| == |totals|
    && forall d :: 0 <= d < |totals| ==>
         && cur[d] <= totals[d] && (cur[d] < totals[d] ==> cur[d] % SECTORS_PER_CHUNK == 0)
         && (done[d] ==> cur[d] == totals[d])
  }

  /** Every chunk behind the cursors is among the blocks. */
  ghost predicate Covered(totals: seq<nat>, all: seq<Block>, cur: seq<nat>)
    requires |cur| == |totals|
  {
    forall c :: ValidChunk(totals, c) && ChunkStart(c) < cur[c.dev] ==> LastOf(all, c).Some?
  }

  /** The account of all blocks: what has been read, how reads are numbered, and whether they are in order. */
  ghost predicate Account(totals: seq<nat>, all: seq<Block>, cur: seq<nat>, next: nat, overtaken: bool)
    requires |cur| == |totals|
  {
    Covered(totals, all, cur) && Numbered(all, next) && (overtaken || NewestLast(all))
  }

  /** Only chunks behind the cursors are being read. */
  ghost predicate Behind(pending: seq<Block>, cur: seq<nat>) {
    forall k :: 0 <= k < |pending| ==> pending[k].id.dev < |cur| && ChunkStart(pending[k].id) < cur[pending[k].id.dev]
  }

  /** What the saver keeps beside the state of the system. */
  datatype Books = Books(inflight: set<ChunkId>, curSector: seq<nat>, curDirty: seq<nat>, bulkDone: seq<bool>,
                         bulkCompleted: bool, submitted: int, readDone: int, audit: Audit)

  /**
    What the proof keeps: whether blocks were freed unsent, the chunks whose bulk read is pending, the
    chunks that were read while a read of them was pending, and whether a read completed before an
    earlier one of its chunk.
   */
  datatype Audit = Audit(stranded: bool, bulkReads: set<ChunkId>, overlapped: set<ChunkId>, overtaken: bool)

  /** What reads that complete do to it. */
  ghost predicate Waited(a: Audit, b: Audit) {
    && b.stranded == a.stranded && b.bulkReads <= a.bulkReads && b.overlapped == a.overlapped
    && (a.overtaken ==> b.overtaken)
  }

  /** What the dirty phase does to it: a chunk gets a second read only while its bulk read is pending. */
  ghost predicate Advanced(a: Audit, b: Audit) {
    && b.stranded == a.stranded && b.bulkReads <= a.bulkReads
    && a.overlapped <= b.overlapped <= a.overlapped + a.bulkReads && (a.overtaken ==> b.overtaken)
  }

  /** Every chunk behind the bulk cursor has been read, and the account is right. */
  ghost predicate BulkCovered(totals: seq<nat>, x: State, v: Books) {
    && |v.curSector| == |totals| && Cursors(totals, v.curSector, v.bulkDone)
    && (v.audit.stranded || Account(totals, All(x), v.curSector, x.next, v.audit.overtaken))
    && (v.bulkCompleted ==> forall d :: 0 <= d < |totals| ==> v.bulkDone[d])
  }

  /** The in-flight bitmap; until the bulk phase is over, only chunks behind its cursor are read. */
  ghost predicate Guarded(x: State, v: Books) {
    && BitmapOk(x.pending, v.inflight, v.audit.bulkReads, v.audit.overlapped)
    && (v.audit.overlapped == {} ==> !v.audit.overtaken)
    && (v.bulkCompleted || Behind(x.pending, v.curSector))
  }

  ghost predicate BooksOk(totals: seq<nat>, x: State, v: Books) {
    && HasDisks(totals, x.disk)
    && |v.curDirty| == |totals| && Aligned(v.curDirty)
    && v.submitted == |x.pending| && v.readDone == |x.queue|
    && AllValid(totals, x.pending)
    && BulkCovered(totals, x, v) && Guarded(x, v)
  }

  /** The books after read k completes. */
  ghost function BooksCompleted(x: State, v: Books, k: nat): Books
    requires k < |x.pending|
  {
    var id := x.pending[k].id;
    v.(inflight := v.inflight - {id}, submitted := v.submitted - 1, readDone := v.readDone + 1,
       audit := v.audit.(bulkReads := v.audit.bulkReads - {id},
                         overtaken := v.audit.overtaken || Overtakes(x.pending, k)))
  }

  lemma BooksKeepCompleted(totals: seq<nat>, x: State, v: Books, k: nat)
    requires BooksOk(totals, x, v) && k < |x.pending| && Full(totals, x.pending[k])
    ensures BooksOk(totals, Completed(x, k), BooksCompleted(x, v, k)) && Reach(totals, x, Completed(x, k))
  {
    hide Reach, Full, BitmapOk, AllValid, Behind, Overtakes, Account, All, Cursors, Aligned, HasDisks;
    ReadCompleted(totals, x, k, v.curSector, v.inflight, v.audit.bulkReads, v.audit.overlapped);
    if !v.audit.stranded {
      AccountCompleted(totals, x, k, v.curSector, v.audit.overtaken);
    }
  }

  /** The books after the dirty phase submits a read. */
  ghost function BooksDirtyRead(x: State, v: Books, c: ChunkId): Books {
    v.(inflight := v.inflight + {c}, submitted := v.submitted + 1,
       audit := v.audit.(overlapped := v.audit.overlapped + if Reading(x.pending, c) then {c} else {}))
  }

  lemma BooksKeepDirtyRead(totals: seq<nat>, x: State, v: Books, c: ChunkId)
    requires BooksOk(totals, x, v) && ValidChunk(totals, c) && v.bulkCompleted
    ensures BooksOk(totals, Submitted(x, c), BooksDirtyRead(x, v, c)) && Reach(totals, x, Submitted(x, c))
  {
    hide Reach, BitmapOk, Reading, Behind, Account, All, Cursors, Aligned, HasDisks;
    BitmapDirtyRead(x.pending, v.inflight, v.audit.bulkReads, v.audit.overlapped, Block(c, x.next, map[]));
    var o := v.audit.overlapped;
    assert BooksDirtyRead(x, v, c).audit.overlapped == if Reading(x.pending, c) then o + {c} else o;
    ReachBySubmitRead(totals, x, Submitted(x, c), c);
    if !v.audit.stranded {
      AccountSubmitted(totals, x, c, v.curSector, v.audit.overtaken);
    }
  }

  /** The books after the bulk phase submits a read. */
  ghost function BooksBulkRead(v: Books, c: ChunkId, to: nat): Books
    requires c.dev < |v.curSector|
  {
    v.(submitted := v.submitted + 1, curSector := v.curSector[c.dev := to],
       audit := v.audit.(bulkReads := v.audit.bulkReads + {c}))
  }

  lemma BooksKeepBulkRead(totals: seq<nat>, x: State, v: Books, c: ChunkId, to: nat)
    requires BooksOk(totals, x, v) && ValidChunk(totals, c) && !v.bulkCompleted && !v.bulkDone[c.dev]
    requires v.curSector[c.dev] == ChunkStart(c) && to == Min(totals[c.dev], ChunkStart(c) + SECTORS_PER_CHUNK)
    ensures BooksOk(totals, Submitted(x, c), BooksBulkRead(v, c, to)) && Reach(totals, x, Submitted(x, c))
    ensures c !in v.inflight && Reading(Submitted(x, c).pending, c)
  {
    hide Reach, BitmapOk, Reading, Behind, Account, All, Aligned, HasDisks;
    var blank := Block(c, x.next, map[]);
    BehindBulk(x.pending, blank, v.curSector, to);
    NotInFlight(x.pending, v.inflight, v.audit.bulkReads, v.audit.overlapped, c);
    BitmapBulkRead(x.pending, v.inflight, v.audit.bulkReads, v.audit.overlapped, blank);
    ReadingAppend(x.pending, blank, c);
    ReachBySubmitRead(totals, x, Submitted(x, c), c);
    if !v.audit.stranded {
      AccountBulk(totals, x, c, v.curSector, to, v.audit.overtaken);
    }
  }

  /** What the guest does is not in the books. */
  lemma BooksKeepGuest(totals: seq<nat>, x: State, y: State, v: Books)
    requires BooksOk(totals, x, v) && HasDisks(totals, y.disk)
    requires y == x.(disk := y.disk, dirty := y.dirty, writes := y.writes)
    ensures BooksOk(totals, y, v)
  {
    hide Account, BitmapOk, Behind, Cursors, Aligned, AllValid;
  }

  lemma BooksKeepSample(totals: seq<nat>, x: State, y: State, v: Books, k: nat, a: At)
    requires BooksOk(totals, x, v) && Sample(totals, x, y, k, a)
    ensures BooksOk(totals, y, v)
  {
    hide Account, BitmapOk, Behind, Cursors, Aligned;
    BitmapSameIds(x.pending, y.pending, v.inflight, v.audit.bulkReads, v.audit.overlapped);
    if !v.bulkCompleted {
      BehindSame(x.pending, y.pending, v.curSector);
    }
    if !v.audit.stranded {
      AccountSampled(totals, x, y, k, a, v.curSector, v.audit.overtaken);
    }
  }

  lemma BooksKeepSend(totals: seq<nat>, x: State, y: State, v: Books)
    requires BooksOk(totals, x, v) && Send(x, y)
    ensures BooksOk(totals, y, v.(readDone := v.readDone - 1))
  {
    hide Account, BitmapOk, Behind, Cursors, Aligned, AllValid, HasDisks;
    assert All(y) == All(x);
  }

  lemma BooksKeepSendNow(totals: seq<nat>, x: State, y: State, v: Books, b: Block)
    requires BooksOk(totals, x, v) && SendNow(totals, x, y, b)
    ensures BooksOk(totals, y, v)
  {
    hide Account, BitmapOk, Behind, Cursors, Aligned, AllValid, HasDisks, CopyOf;
    if !v.audit.stranded {
      AccountSentNow(totals, x, y, b, v.curSector, v.audit.overtaken);
    }
  }

  lemma BooksKeepDirtyCursor(totals: seq<nat>, x: State, v: Books, cur: seq<nat>)
    requires BooksOk(totals, x, v) && |cur| == |totals| && Aligned(cur)
    ensures BooksOk(totals, x, v.(curDirty := cur))
  {
    hide Account, BitmapOk, Behind, Cursors, AllValid, HasDisks, Aligned;
  }

  /** A device whose cursor is at the end is done with the bulk phase. */
  lemma BooksKeepBulkDone(totals: seq<nat>, x: State, v: Books, d: nat)
    requires BooksOk(totals, x, v) && |v.curSector| == |v.bulkDone| == |totals|
    requires d < |totals| && v.curSector[d] == totals[d]
    ensures BooksOk(totals, x, v.(bulkDone := v.bulkDone[d := true]))
  {
    hide Account, BitmapOk, Behind, AllValid, HasDisks, Aligned;
  }

  lemma BooksKeepBulkOver(totals: seq<nat>, x: State, v: Books)
    requires BooksOk(totals, x, v) && |v.bulkDone| == |totals| && forall d :: 0 <= d < |totals| ==> v.bulkDone[d]
    ensures BooksOk(totals, x, v.(bulkCompleted := true))
  {
    hide Account, BitmapOk, Behind, AllValid, HasDisks, Aligned, Cursors;
  }

  /** Freeing the queue loses blocks unless it is empty. */
  lemma BooksKeepFree(totals: seq<nat>, x: State, v: Books)
    requires BooksOk(totals, x, v)
    ensures var audit := v.audit.(stranded := v.audit.stranded || x.queue != []);
            BooksOk(totals, x.(queue := []), v.(readDone := 0, audit := audit))
  {
    hide Account, BitmapOk, Behind, AllValid, HasDisks, Aligned, Cursors;
  }

  ghost predicate Aligned(cur: seq<nat>) {
    forall d :: 0 <= d < |cur| ==> cur[d] % SECTORS_PER_CHUNK == 0
  }

  ghost predicate AllValid(totals: seq<nat>, pending: seq<Block>) {
    forall k :: 0 <= k < |pending| ==> ValidChunk(totals, pending[k].id)
  }

  lemma AllValidRest(totals: seq<nat>, pending: seq<Block>, k: nat)
    requires AllValid(totals, pending) && k < |pending|
    ensures AllValid(totals, pending[..k] + pending[k + 1..])
  {}

  lemma CoveredMore(totals: seq<nat>, all: seq<Block>, more: seq<Block>, cur: seq<nat>)
    requires |cur| == |totals| && Covered(totals, all, cur)
    requires forall c :: LastOf(all, c).Some? ==> LastOf(more, c).Some?
    ensures Covered(totals, more, cur)
  {
    hide LastOf;
  }

  /** The cursor of a device moves past the chunk that has just been submitted. */
  lemma CoveredBulk(totals: seq<nat>, all: seq<Block>, more: seq<Block>, cur: seq<nat>, c: ChunkId, next: nat)
    requires |cur| == |totals| && Covered(totals, all, cur) && ValidChunk(totals, c)
    requires cur[c.dev] == ChunkStart(c) && next <= ChunkStart(c) + SECTORS_PER_CHUNK
    requires forall e :: e == c || LastOf(all, e).Some? ==> LastOf(more, e).Some?
    ensures Covered(totals, more, cur[c.dev := next])
  {
    hide LastOf;
    NextChunk(totals, c);
  }

  lemma BehindBulk(pending: seq<Block>, b: Block, cur: seq<nat>, next: nat)
    requires Behind(pending, cur) && b.id.dev < |cur| && cur[b.id.dev] == ChunkStart(b.id) < next
    ensures !Reading(pending, b.id) && Behind(pending + [b], cur[b.id.dev := next])
  {}

  lemma BehindSame(p: seq<Block>, q: seq<Block>, cur: seq<nat>)
    requires Behind(p, cur) && |q| == |p| && forall k :: 0 <= k < |p| ==> q[k].id == p[k].id
    ensures Behind(q, cur)
  {}

  lemma BehindRest(pending: seq<Block>, k: nat, cur: seq<nat>)
    requires Behind(pending, cur) && k < |pending|
    ensures Behind(pending[..k] + pending[k + 1..], cur)
  {}

  class BlockSaver {
    const totals: seq<nat>           // total_sectors of each device
    var disk: map<At, Sector>
    var dirty: set<ChunkId>
    var writes: set<GuestWrite>
    var pending: seq<Block>
    var queue: seq<Block>
    var sent: seq<Block>
    var next: nat
    var inflight: set<ChunkId>       // aio_bitmap
    var curSector: seq<nat>
    var curDirty: seq<nat>
    var bulkDone: seq<bool>
    var bulkCompleted: bool
    var submitted: int
    var readDone: int
    var transferred: int
    var waits: seq<seq<Outside>>     // what happens during the coming calls of qemu_aio_flush
    ghost var audit: Audit

    /** Stage 1: counters cleared, cursors at 0, tracking just turned on. */
    constructor (totals: seq<nat>, disk: map<At, Sector>, waits: seq<seq<Outside>>)
      requires HasDisks(totals, disk)
      requires forall d :: 0 <= d < |totals| ==> totals[d] > 0
      ensures Valid() && this.totals == totals && this.disk == disk && Start(totals, Abs())
      ensures audit == Audit(false, {}, {}, false) && !bulkCompleted
    {
      this.totals, this.disk, this.waits := totals, disk, waits;
      dirty, writes, pending, queue, sent, inflight := {}, {}, [], [], [], {};
      audit, next := Audit(false, {}, {}, false), 0;
      curSector := seq(|totals|, _ => 0);
      curDirty := seq(|totals|, _ => 0);
      bulkDone := seq(|totals|, _ => false);
      bulkCompleted := false;
      submitted, readDone, transferred := 0, 0, 0;
    }

    ghost function Abs(): State
      reads this`disk, this`dirty, this`writes, this`pending, this`queue, this`sent, this`next
    {
      State(disk, dirty, writes, pending, queue, sent, next)
    }

    ghost function View(): Books
      reads this`inflight, this`curSector, this`curDirty, this`bulkDone, this`bulkCompleted, this`submitted
      reads this`readDone, this`audit
    {
      Books(inflight, curSector, curDirty, bulkDone, bulkCompleted, submitted, readDone, audit)
    }

    ghost predicate Valid()
      reads this`disk, this`dirty, this`writes, this`pending, this`queue, this`sent, this`next, this`inflight
      reads this`curSector, this`curDirty, this`bulkDone, this`bulkCompleted, this`submitted, this`readDone
      reads this`audit
    {
      BooksOk(totals, Abs(), View())
    }

    /** Every chunk behind the dirty cursor is clean. */
    ghost predicate CleanBelow()
      reads this`dirty, this`curDirty
    {
      && |curDirty| == |totals|
      && forall c :: ValidChunk(totals, c) && ChunkStart(c) < curDirty[c.dev] ==> c !in dirty
    }

    // ---- The guest and the disks ---------------------------------------------------------------------------

    /** The guest submits a write. */
    method GuestSubmit(w: GuestWrite)
      requires Valid() && w !in writes && w.dev < |totals| && w.nb > 0 && w.sector + w.nb <= totals[w.dev]
      modifies this`writes
      ensures Valid() && writes == old(writes) + {w} && Reach(totals, old(Abs()), Abs())
    {
      HasDisk();
      hide Reach, BooksOk;
      ghost var x := Abs();
      writes := writes + {w};
      ReachBySubmit(totals, x, Abs(), w);
      BooksKeepGuest(totals, x, Abs(), View());
    }

    /** A sector of a write in flight reaches the disk. */
    method GuestLand(w: GuestWrite, a: At, v: Sector)
      requires Valid() && w in writes && Covers(w, a) && ValidAt(totals, a)
      modifies this`disk
      ensures Valid() && disk == old(disk)[a := v] && Reach(totals, old(Abs()), Abs())
    {
      HasDisk();
      hide Reach, BooksOk;
      ghost var x := Abs();
      disk := disk[a := v];
      ReachByLand(totals, x, Abs(), w, a, v);
      BooksKeepGuest(totals, x, Abs(), View());
    }

    /** A write completes and marks the chunks that it touches. */
    method GuestComplete(w: GuestWrite)
      requires Valid() && w in writes
      modifies this`writes, this`dirty
      ensures Valid() && writes == old(writes) - {w} && Reach(totals, old(Abs()), Abs())
      ensures forall c :: c in dirty <==> c in old(dirty) || (c.dev == w.dev && Touches(w.sector, w.nb, c.chunk))
    {
      HasDisk();
      hide Reach, BooksOk;
      ghost var x := Abs();
      writes := writes - {w};
      dirty := dirty + set k: nat | FirstChunk(w.sector) <= k <= LastChunk(w.sector, w.nb) :: ChunkId(w.dev, k);
      assert forall c: ChunkId :: c.dev == w.dev && Touches(w.sector, w.nb, c.chunk) ==> c == ChunkId(w.dev, c.chunk);
      ReachByComplete(totals, x, Abs(), w);
      BooksKeepGuest(totals, x, Abs(), View());
    }

    lemma HasDisk()
      requires Valid()
      ensures HasDisks(totals, disk)
    {
      hide BulkCovered, Guarded;
    }

    /** A pending read receives one sector. */
    method ReadOneSector(k: nat, s: nat)
      requires Valid() && k < |pending| && s !in pending[k].buf
      requires ValidAt(totals, At(pending[k].id.dev, s)) && ChunkOf(At(pending[k].id.dev, s)) == pending[k].id
      modifies this`pending
      ensures Valid() && Reach(totals, old(Abs()), Abs())
      ensures exists b :: pending == old(pending)[k := b] && b.id == old(pending)[k].id &&
                          b.buf.Keys == old(pending)[k].buf.Keys + {s}
    {
      HasDisk();
      hide Reach, BooksOk;
      ghost var x := Abs();
      var a := At(pending[k].id.dev, s);
      var b := pending[k].(buf := pending[k].buf[s := disk[a]]);
      pending := pending[k := b];
      ReachBySample(totals, x, Abs(), k, a);
      BooksKeepSample(totals, x, Abs(), View(), k, a);
    }

    /** A pending read receives the rest of its sectors. */
    method FillRead(k: nat)
      requires Valid() && k < |pending|
      modifies this`pending
      ensures Valid() && Reach(totals, old(Abs()), Abs())
      ensures |pending| == |old(pending)| && (forall j :: 0 <= j < |pending| ==> pending[j].id == old(pending)[j].id)
      ensures Full(totals, pending[k])
    {
      hide LastOf, Reach, Step, BulkCovered, Guarded;
      ghost var x := Abs();
      ReachSelf(totals, x);
      var c := pending[k].id;
      var s, end := ChunkStart(c), Min(ChunkStart(c) + SECTORS_PER_CHUNK, totals[c.dev]);
      while s < end
        invariant ChunkStart(c) <= s <= end
        invariant Valid() && Reach(totals, x, Abs())
        invariant |pending| == |old(pending)|
        invariant forall j :: 0 <= j < |pending| ==> pending[j].id == old(pending)[j].id
        invariant forall t :: ChunkStart(c) <= t < s ==> t in pending[k].buf
      {
        if s !in pending[k].buf {
          ghost var y := Abs();
          ReadOneSector(k, s);
          ReachJoin(totals, x, y, Abs());
        }
        s := s + 1;
      }
      forall t: nat | ValidAt(totals, At(c.dev, t)) && ChunkOf(At(c.dev, t)) == c
        ensures t in pending[k].buf
      {
        assert ChunkStart(c) <= t < end;
      }
    }

    /** blk_mig_read_cb: any pending read may be the one that completes. */
    method ReadCb(k: nat)
      requires Valid() && k < |pending| && Full(totals, pending[k])
      modifies this`pending, this`queue, this`inflight, this`submitted, this`readDone, this`audit
      ensures Abs() == Completed(old(Abs()), k) && View() == BooksCompleted(old(Abs()), old(View()), k)
      ensures Valid() && Reach(totals, old(Abs()), Abs())
    {
      hide Reach, Full, BooksOk, Overtakes;
      ghost var x, v := Abs(), View();
      BooksKeepCompleted(totals, x, v, k);
      ghost var y, after := Completed(x, k), BooksCompleted(x, v, k);
      var b := pending[k];
      queue := queue + [b];
      inflight := inflight - {b.id};
      submitted := submitted - 1;
      readDone := readDone + 1;
      audit := after.audit;
      pending := pending[..k] + pending[k + 1..];
      assert Abs() == y;
      assert View() == after;
    }

    /** A pending read gets the rest of its sectors and completes. */
    method Finish(k: nat)
      requires Valid() && k < |pending|
      modifies this`pending, this`queue, this`inflight, this`submitted, this`readDone, this`audit
      ensures Valid() && Reach(totals, old(Abs()), Abs())
      ensures |pending| == |old(pending)| - 1 && submitted + readDone == old(submitted + readDone)
      ensures |queue| == |old(queue)| + 1 && queue == old(queue) + [queue[|old(queue)|]]
      ensures queue[|old(queue)|].id == old(pending)[k].id && Full(totals, queue[|old(queue)|])
      ensures inflight <= old(inflight) && Waited(old(audit), audit)
    {
      hide LastOf, Reach, Full, BulkCovered, Guarded, Overtakes;
      FillRead(k);
      ghost var y := Abs();
      ReadCb(k);
      ReachJoin(totals, old(Abs()), y, Abs());
    }

    /** Nothing but the migration's own reads is in flight, and no wait will bring a new guest write. */
    ghost predicate Calm()
      reads this`writes, this`waits
    {
      writes == {} && forall i :: 0 <= i < |waits| ==> NoSubmission(waits[i])
    }

    /** One thing happens outside the saver, if it can. */
    method Happen(e: Outside)
      requires Valid()
      modifies this`disk, this`dirty, this`writes, this`pending, this`queue, this`inflight, this`submitted,
               this`readDone, this`audit
      ensures Valid() && Reach(totals, old(Abs()), Abs())
      ensures submitted + readDone == old(submitted + readDone) && old(dirty) <= dirty
      ensures inflight <= old(inflight) && Waited(old(audit), audit)
      ensures old(writes) == {} && !e.SubmitWrite? ==> disk == old(disk) && dirty == old(dirty) && writes == {}
      ensures Happened(totals, old(Abs()), Abs(), e)
    {
      hide LastOf, Reach, BulkCovered, Guarded;
      ReachSelf(totals, Abs());
      match e
      case SubmitWrite(w) =>
        if w !in writes && w.dev < |totals| && w.nb > 0 && w.sector + w.nb <= totals[w.dev] {
          GuestSubmit(w);
        }
      case LandSector(w, a, v) =>
        if w in writes && Covers(w, a) && ValidAt(totals, a) {
          GuestLand(w, a, v);
        }
      case CompleteWrite(w) =>
        if w in writes {
          GuestComplete(w);
        }
      case ReadSector(k, s) =>
        if Awaits(totals, pending, k, s) {
          ReadOneSector(k, s);
        }
      case FinishRead(k) =>
        if k < |pending| {
          Finish(k);
        }
    }

    /** Any number of things happen. */
    method HappenAll(events: seq<Outside>) returns (ghost trace: seq<State>)
      requires Valid()
      modifies this`disk, this`dirty, this`writes, this`pending, this`queue, this`inflight, this`submitted,
               this`readDone, this`audit
      ensures Valid() && Reach(totals, old(Abs()), Abs())
      ensures submitted + readDone == old(submitted + readDone) && old(dirty) <= dirty
      ensures inflight <= old(inflight) && Waited(old(audit), audit)
      ensures old(writes) == {} && NoSubmission(events) ==> disk == old(disk) && dirty == old(dirty) && writes == {}
      ensures |trace| == |events| + 1 && trace[0] == old(Abs()) && trace[|events|] == Abs()
      ensures HappenedAll(totals, trace, events)
    {
      hide Valid, Reach, Happened;
      ghost var x := Abs();
      trace := [x];
      ReachSelf(totals, x);
      for n := 0 to |events|
        invariant Valid() && Reach(totals, x, Abs())
        invariant submitted + readDone == old(submitted + readDone) && old(dirty) <= dirty
        invariant inflight <= old(inflight) && Waited(old(audit), audit)
        invariant old(writes) == {} && NoSubmission(events) ==> disk == old(disk) && dirty == old(dirty) && writes == {}
        invariant |trace| == n + 1 && trace[0] == x && trace[n] == Abs()
        invariant forall k :: 0 <= k < n ==> Happened(totals, trace[k], trace[k + 1], events[k])
      {
        ghost var y := Abs();
        Happen(events[n]);
        ReachJoin(totals, x, y, Abs());
        trace := trace + [Abs()];
      }
    }

    /** No read of one chunk can overtake another while none was submitted beside another. */
    lemma AnyOrder(k: nat)
      requires Valid() && audit.overlapped == {} && k < |pending|
      ensures !Overtakes(pending, k)
    {
      NothingOverlapped(pending, inflight, audit.bulkReads, k);
    }

    /** The bit of a chunk is clear when nothing is pending. */
    lemma NothingPending()
      requires Valid() && pending == []
      ensures inflight == {} && audit.bulkReads == {}
    {
      hide BulkCovered;
      assert forall c :: !Reading(pending, c);
    }

    /** Every read and every guest write in flight completes. */
    method Settle()
      requires Valid()
      modifies this`dirty, this`writes, this`pending, this`queue, this`inflight, this`submitted, this`readDone,
               this`audit
      ensures Valid() && pending == [] && writes == {} && Reach(totals, old(Abs()), Abs())
      ensures submitted + readDone == old(submitted + readDone) && old(dirty) <= dirty
      ensures inflight == {} && audit.bulkReads == {} && Waited(old(audit), audit)
      ensures old(writes) == {} ==> dirty == old(dirty)
    {
      hide Valid, Reach;
      ghost var x := Abs();
      ReachSelf(totals, x);
      while pending != []
        invariant Valid() && Reach(totals, x, Abs()) && writes == old(writes) && dirty == old(dirty)
        invariant submitted + readDone == old(submitted + readDone) && Waited(old(audit), audit)
        decreases |pending|
      {
        ghost var y := Abs();
        Finish(0);
        ReachJoin(totals, x, y, Abs());
      }
      while writes != {}
        invariant Valid() && pending == [] && Reach(totals, x, Abs())
        invariant submitted + readDone == old(submitted + readDone) && old(dirty) <= dirty && Waited(old(audit), audit)
        invariant old(writes) == {} ==> writes == {} && dirty == old(dirty)
        decreases |writes|
      {
        ghost var y := Abs();
        var w :| w in writes;
        GuestComplete(w);
        ReachJoin(totals, x, y, Abs());
      }
      NothingPending();
    }

    /**
      qemu_aio_flush: waits until every read and every guest write in flight has completed, in whatever
      order that happens; callbacks may submit further writes on the way.
     */
    method AioFlush() returns (ghost trace: seq<State>)
      requires Valid()
      modifies this`disk, this`dirty, this`writes, this`pending, this`queue, this`inflight, this`submitted,
               this`readDone, this`audit, this`waits
      ensures Valid() && pending == [] && writes == {} && Reach(totals, old(Abs()), Abs())
      ensures submitted + readDone == old(submitted + readDone) && old(dirty) <= dirty
      ensures inflight == {} && audit.bulkReads == {} && Waited(old(audit), audit)
      ensures old(Calm()) ==> Calm() && disk == old(disk) && dirty == old(dirty)
      ensures HappenedAll(totals, trace, if old(waits) == [] then [] else old(waits)[0])
      ensures trace != [] && trace[0] == old(Abs()) && disk == trace[|trace| - 1].disk
      ensures waits == if old(waits) == [] then [] else old(waits)[1..]
    {
      hide Valid, Reach, HappenedAll;
      ghost var x := Abs();
      ReachSelf(totals, x);
      trace := [x];
      NothingHappened(totals, x);
      if waits != [] {
        trace := HappenAll(waits[0]);
        waits := waits[1..];
      }
      ghost var z := Abs();
      Settle();
      ReachJoin(totals, x, z, Abs());
    }

    // ---- The bulk phase ----------------------------------------------------------------------------------------

    /**
      The bulk phase reads the chunk at a device's cursor.  Its in-flight bit is clear, and stays so while
      the read is pending.
     */
    method SubmitBulk(c: ChunkId, to: nat)
      requires Valid() && |curSector| == |bulkDone| == |totals|
      requires ValidChunk(totals, c) && !bulkCompleted && !bulkDone[c.dev]
      requires curSector[c.dev] == ChunkStart(c) && to == Min(totals[c.dev], ChunkStart(c) + SECTORS_PER_CHUNK)
      modifies this`pending, this`dirty, this`next, this`submitted, this`curSector, this`audit
      ensures Abs() == Submitted(old(Abs()), c) && View() == BooksBulkRead(old(View()), c, to)
      ensures Reading(pending, c) && c !in inflight
      ensures Valid() && Reach(totals, old(Abs()), Abs())
    {
      hide Reach, Reading, BooksOk;
      ghost var x, v := Abs(), View();
      BooksKeepBulkRead(totals, x, v, c, to);
      pending := pending + [Block(c, next, map[])];
      next := next + 1;
      audit := audit.(bulkReads := audit.bulkReads + {c});
      submitted := submitted + 1;
      dirty := dirty - {c};
      curSector := curSector[c.dev := to];
    }

    lemma BulkCursors()
      requires Valid()
      ensures Cursors(totals, curSector, bulkDone)
    {
      hide Guarded;
    }

    /** mig_save_device_bulk without a shared base image. */
    method SaveDeviceBulk(d: nat) returns (done: bool)
      requires Valid() && |curSector| == |bulkDone| == |totals| && d < |totals| && !bulkCompleted && !bulkDone[d]
      modifies this`pending, this`dirty, this`next, this`submitted, this`curSector, this`audit
      ensures Valid() && |curSector| == |totals|
      ensures forall e :: 0 <= e < |totals| && e != d ==> curSector[e] == old(curSector)[e]
      ensures curSector[d] <= totals[d] && (done <==> curSector[d] == totals[d])
      ensures done || curSector[d] > old(curSector)[d]
      ensures dirty <= old(dirty) && Reach(totals, old(Abs()), Abs())
      ensures audit == old(audit).(bulkReads := audit.bulkReads)
    {
      BulkCursors();
      hide Reach, BooksOk;
      var cur := curSector[d];
      ReachSelf(totals, Abs());
      if cur >= totals[d] {
        return true;
      }
      var c := ChunkId(d, cur / SECTORS_PER_CHUNK);
      cur := ChunkStart(c);
      var nr := Min(totals[d] - cur, SECTORS_PER_CHUNK);
      SubmitBulk(c, cur + nr);
      return curSector[d] >= totals[d];
    }

    /** A pass of the bulk phase over a device that is not done yet. */
    method BulkDevice(d: nat)
      requires Valid() && Cursors(totals, curSector, bulkDone) && d < |totals| && !bulkCompleted && !bulkDone[d]
      modifies this`pending, this`dirty, this`next, this`submitted, this`curSector, this`bulkDone, this`audit
      ensures Valid() && dirty <= old(dirty) && Reach(totals, old(Abs()), Abs())
      ensures Cursors(totals, curSector, bulkDone) && audit == old(audit).(bulkReads := audit.bulkReads)
      ensures BulkLeft(totals, curSector, bulkDone) < old(BulkLeft(totals, curSector, bulkDone))
    {
      hide Reach, BulkLeft, BooksOk;
      var done := SaveDeviceBulk(d);
      BulkCursors();
      if done {
        BooksKeepBulkDone(totals, Abs(), View(), d);
        bulkDone := bulkDone[d := true];
      }
      BulkLeftLess(totals, old(curSector), old(bulkDone), curSector, bulkDone, d);
    }

    /** blk_mig_save_bulked_block */
    method SaveBulkedBlock() returns (more: bool)
      requires Valid() && !bulkCompleted
      modifies this`pending, this`dirty, this`next, this`submitted, this`curSector, this`bulkDone, this`audit
      ensures Valid() && dirty <= old(dirty) && Reach(totals, old(Abs()), Abs())
      ensures Cursors(totals, curSector, bulkDone) && old(Cursors(totals, curSector, bulkDone))
      ensures audit == old(audit).(bulkReads := audit.bulkReads)
      ensures !more ==> forall d :: 0 <= d < |totals| ==> bulkDone[d]
      ensures more ==> BulkLeft(totals, curSector, bulkDone) < old(BulkLeft(totals, curSector, bulkDone))
    {
      hide Valid, Reach, BulkLeft;
      BulkCursors();
      ReachSelf(totals, Abs());
      var d := 0;
      while d < |totals|
        invariant d <= |totals| && unchanged(this)
        invariant forall e :: 0 <= e < d ==> bulkDone[e]
      {
        if !bulkDone[d] {
          BulkDevice(d);
          return true;
        }
        d := d + 1;
      }
      return false;
    }

    // ---- The dirty phase ---------------------------------------------------------------------------------------

    /** The asynchronous branch: submit a read, set the in-flight bit and reset the dirty bit. */
    method SubmitDirty(c: ChunkId)
      requires Valid() && ValidChunk(totals, c) && bulkCompleted
      modifies this`pending, this`dirty, this`next, this`submitted, this`inflight, this`audit
      ensures Abs() == Submitted(old(Abs()), c) && View() == BooksDirtyRead(old(Abs()), old(View()), c)
      ensures Valid() && Reach(totals, old(Abs()), Abs())
    {
      hide Reach, Reading, BooksOk;
      ghost var x, v := Abs(), View();
      BooksKeepDirtyRead(totals, x, v, c);
      ghost var y, after := Submitted(x, c), BooksDirtyRead(x, v, c);
      pending := pending + [Block(c, next, map[])];
      next := next + 1;
      submitted := submitted + 1;
      inflight := inflight + {c};
      dirty := dirty - {c};
      audit := after.audit;
      assert Abs() == y;
      assert View() == after;
    }

    /** The synchronous branch: read, send and reset a chunk at once. */
    method SendChunkNow(c: ChunkId)
      requires Valid() && ValidChunk(totals, c) && c in dirty
      requires pending == [] && queue == [] && writes == {}
      modifies this`dirty, this`sent, this`next
      ensures Valid() && dirty == old(dirty) - {c}
      ensures Reach(totals, old(Abs()), Abs()) && SentNow(totals, old(Abs()), Abs())
    {
      HasDisk();
      hide Reach, BooksOk, SentNow;
      ghost var x := Abs();
      var start, end := ChunkStart(c), Min(ChunkStart(c) + SECTORS_PER_CHUNK, totals[c.dev]);
      forall t: nat | start <= t < end
        ensures At(c.dev, t) in disk
      {
        assert ValidAt(totals, At(c.dev, t));
      }
      var b := Block(c, next, map t: nat | start <= t < end :: disk[At(c.dev, t)]);
      sent := sent + [b];
      dirty := dirty - {c};
      next := next + 1;
      assert CopyOf(totals, x, b);
      ReachBySendNow(totals, x, Abs(), b);
      SentOneNow(totals, x, Abs(), b);
      BooksKeepSendNow(totals, x, Abs(), View(), b);
    }

    /** The dirty cursor moves past a clean chunk. */
    method PassChunk(c: ChunkId)
      requires Valid() && |curDirty| == |totals| && c.dev < |totals| && curDirty[c.dev] == ChunkStart(c) && c !in dirty
      modifies this`curDirty
      ensures Valid() && (old(CleanBelow()) ==> CleanBelow())
      ensures curDirty == old(curDirty)[c.dev := ChunkStart(c) + SECTORS_PER_CHUNK]
    {
      DirtyCursors();
      hide BooksOk;
      BooksKeepDirtyCursor(totals, Abs(), View(), curDirty[c.dev := ChunkStart(c) + SECTORS_PER_CHUNK]);
      curDirty := curDirty[c.dev := ChunkStart(c) + SECTORS_PER_CHUNK];
      NextChunk(totals, c);
    }

    /** With the in-flight bit clear, a read can be pending only if the bulk read was. */
    lemma ClearBit(c: ChunkId)
      requires Valid()
      ensures c !in inflight && c !in audit.bulkReads && c !in audit.overlapped ==> !Reading(pending, c)
    {
      hide BulkCovered, BitmapOk;
      ClearMeansNoRead(pending, inflight, audit.bulkReads, audit.overlapped, c);
    }

    /** A dirty chunk whose in-flight bit is clear is read asynchronously. */
    method TakeLater(c: ChunkId)
      requires Valid() && ValidChunk(totals, c) && c !in inflight && bulkCompleted
      modifies this`pending, this`inflight, this`submitted, this`dirty, this`next, this`audit
      ensures Valid() && dirty == old(dirty) - {c} && submitted == old(submitted) + 1
      ensures Reach(totals, old(Abs()), Abs())
      ensures Advanced(old(audit), audit) && audit.overtaken == old(audit).overtaken
    {
      ClearBit(c);
      hide Valid, Reach, Reading, ValidChunk;
      ghost var x, v := Abs(), View();
      SubmitDirty(c);
      assert dirty == Submitted(x, c).dirty && audit == BooksDirtyRead(x, v, c).audit;
    }

    /** What is done with a dirty chunk whose in-flight bit is clear. */
    method TakeChunk(c: ChunkId, isAsync: bool)
      requires Valid() && ValidChunk(totals, c) && c in dirty && c !in inflight && bulkCompleted
      requires !isAsync ==> pending == [] && queue == [] && writes == {}
      modifies this`pending, this`inflight, this`submitted, this`dirty, this`sent, this`next, this`audit
      ensures Valid() && dirty == old(dirty) - {c} && Reach(totals, old(Abs()), Abs())
      ensures old(CleanBelow()) ==> CleanBelow()
      ensures submitted == old(submitted) + if isAsync then 1 else 0
      ensures Advanced(old(audit), audit) && audit.overtaken == old(audit).overtaken
      ensures !isAsync ==> pending == [] && SentNow(totals, old(Abs()), Abs())
    {
      hide Valid, Reach, SentNow, ValidChunk;
      if isAsync {
        TakeLater(c);
      } else {
        SendChunkNow(c);
      }
    }

    lemma DirtyCursors()
      requires Valid()
      ensures |curDirty| == |totals| && forall d :: 0 <= d < |totals| ==> curDirty[d] % SECTORS_PER_CHUNK == 0
    {
      hide BulkCovered, Guarded;
    }

    /**
      The loop of mig_save_device_dirty up to the next dirty chunk.  A wait on the way completes guest
      writes too, and these may mark chunks that the cursor has passed.
     */
    method NextDirty(d: nat) returns (found: bool)
      requires Valid() && d < |totals|
      modifies this`disk, this`dirty, this`writes, this`pending, this`queue, this`inflight, this`submitted,
               this`readDone, this`audit, this`waits, this`curDirty
      ensures Valid() && |curDirty| == |totals| && Reach(totals, old(Abs()), Abs())
      ensures found <==> curDirty[d] < totals[d]
      ensures found ==> curDirty[d] % SECTORS_PER_CHUNK == 0
      ensures found ==> ChunkId(d, curDirty[d] / SECTORS_PER_CHUNK) in dirty - inflight
      ensures forall e :: 0 <= e < |totals| && e != d ==> curDirty[e] == old(curDirty)[e]
      ensures submitted + readDone == old(submitted + readDone) && Waited(old(audit), audit)
      ensures old(Calm()) ==> Calm() && disk == old(disk) && dirty == old(dirty) && (old(CleanBelow()) ==> CleanBelow())
      ensures old(inflight) == {} ==>
                Abs() == old(Abs()) && audit == old(audit) && (old(CleanBelow()) ==> CleanBelow())
    {
      hide Valid, Reach, CleanBelow, Calm;
      ghost var x := Abs();
      ReachSelf(totals, x);
      DirtyCursors();
      while curDirty[d] < totals[d]
        invariant Valid() && |curDirty| == |totals| == |old(curDirty)| && Reach(totals, x, Abs())
        invariant 0 <= curDirty[d] && curDirty[d] % SECTORS_PER_CHUNK == 0
        invariant forall e :: 0 <= e < |totals| && e != d ==> curDirty[e] == old(curDirty)[e]
        invariant submitted + readDone == old(submitted + readDone) && Waited(old(audit), audit)
        invariant old(Calm()) ==>
                    Calm() && disk == old(disk) && dirty == old(dirty) && (old(CleanBelow()) ==> CleanBelow())
        invariant old(inflight) == {} ==>
                    && Abs() == x && inflight == {} && audit == old(audit) && (old(CleanBelow()) ==> CleanBelow())
        decreases totals[d] as int - curDirty[d] as int
      {
        var c := ChunkId(d, curDirty[d] / SECTORS_PER_CHUNK);
        if c in inflight {
          ghost var y := Abs();
          ghost var trace := AioFlush();
          ReachJoin(totals, x, y, Abs());
        }
        if c in dirty {
          return true;
        }
        PassChunk(c);
      }
      return false;
    }

    /** mig_save_device_dirty: true when the device's cursor has reached the end. */
    method SaveDeviceDirty(d: nat, isAsync: bool) returns (done: bool)
      requires Valid() && d < |totals| && bulkCompleted
      requires !isAsync ==> pending == [] && queue == [] && writes == {}
      modifies this`disk, this`dirty, this`writes, this`pending, this`queue, this`inflight, this`submitted,
               this`readDone, this`audit, this`waits, this`sent, this`next, this`curDirty
      ensures Valid() && |curDirty| == |totals| == |old(curDirty)| && Reach(totals, old(Abs()), Abs())
      ensures done <==> curDirty[d] >= totals[d]
      ensures forall e :: 0 <= e < |totals| && e != d ==> curDirty[e] == old(curDirty)[e]
      ensures submitted + readDone == old(submitted + readDone) + if isAsync && !done then 1 else 0
      ensures Advanced(old(audit), audit)
      ensures old(Calm()) || !isAsync ==>
                && disk == old(disk) && dirty <= old(dirty) && (!done ==> |dirty| < |old(dirty)|)
                && (old(CleanBelow()) ==> CleanBelow())
      ensures old(Calm()) ==> Calm()
      ensures !isAsync ==> pending == [] && queue == [] && writes == {} && audit.overtaken == old(audit.overtaken)
      ensures !isAsync ==> SentNow(totals, old(Abs()), Abs())
    {
      hide Valid, Reach, SentNow, CleanBelow, Calm;
      SentNothing(totals, Abs());
      DirtyCursors();
      if !isAsync {
        NothingPending();
      }
      var found := NextDirty(d);
      if found {
        ghost var y := Abs();
        TakeChunk(ChunkId(d, curDirty[d] / SECTORS_PER_CHUNK), isAsync);
        ReachJoin(totals, old(Abs()), y, Abs());
      }
      return !found;
    }

    /** blk_mig_save_dirty_block: true while some device still has a chunk to go through. */
    method SaveDirtyBlock(isAsync: bool) returns (more: bool)
      requires Valid() && bulkCompleted
      requires !isAsync ==> pending == [] && queue == [] && writes == {}
      modifies this`disk, this`dirty, this`writes, this`pending, this`queue, this`inflight, this`submitted,
               this`readDone, this`audit, this`waits, this`sent, this`next, this`curDirty
      ensures Valid() && Reach(totals, old(Abs()), Abs())
      ensures submitted + readDone == old(submitted + readDone) + if isAsync && more then 1 else 0
      ensures Advanced(old(audit), audit)
      ensures old(Calm()) || !isAsync ==>
                disk == old(disk) && dirty <= old(dirty) && (more ==> |dirty| < |old(dirty)|)
      ensures (old(Calm()) || !isAsync) && old(CleanBelow()) ==>
                CleanBelow() && (!more ==> forall c :: ValidChunk(totals, c) ==> c !in dirty)
      ensures old(Calm()) ==> Calm()
      ensures !isAsync ==> pending == [] && queue == [] && writes == {} && audit.overtaken == old(audit.overtaken)
      ensures !isAsync ==> SentNow(totals, old(Abs()), Abs())
    {
      hide Valid, Reach, SentNow, Calm;
      ghost var x := Abs();
      ReachSelf(totals, x);
      SentNothing(totals, x);
      DirtyCursors();
      var d := 0;
      while d < |totals|
        invariant d <= |totals| == |curDirty| && Valid() && Reach(totals, x, Abs())
        invariant forall e :: 0 <= e < d ==> curDirty[e] >= totals[e]
        invariant submitted + readDone == old(submitted + readDone)
        invariant Advanced(old(audit), audit)
        invariant old(Calm()) || !isAsync ==> disk == old(disk) && dirty <= old(dirty) && |dirty| <= |old(dirty)|
        invariant (old(Calm()) || !isAsync) && old(CleanBelow()) ==> CleanBelow()
        invariant old(Calm()) ==> Calm()
        invariant !isAsync ==> pending == [] && queue == [] && writes == {} && audit.overtaken == old(audit.overtaken)
        invariant !isAsync ==> SentNow(totals, x, Abs())
      {
        ghost var y := Abs();
        var done := SaveDeviceDirty(d, isAsync);
        ReachJoin(totals, x, y, Abs());
        if old(Calm()) || !isAsync {
          SubsetSize(dirty, y.dirty);
        }
        if !isAsync {
          SentNowJoin(totals, x, y, Abs());
        }
        if !done {
          return true;
        }
        d := d + 1;
      }
      return false;
    }

    /** One block leaves the queue for the stream. */
    method SendFirst()
      requires Valid() && queue != []
      modifies this`queue, this`sent, this`readDone, this`transferred
      ensures Valid() && Reach(totals, old(Abs()), Abs())
      ensures queue == old(queue)[1..] && sent == old(sent) + [old(queue)[0]] && transferred == old(transferred) + 1
    {
      hide Reach, BooksOk;
      ghost var x, v := Abs(), View();
      sent := sent + [queue[0]];
      queue := queue[1..];
      readDone := readDone - 1;
      transferred := transferred + 1;
      ReachBySend(totals, x, Abs());
      BooksKeepSend(totals, x, Abs(), v);
    }

    ghost function BulkWork(): nat
      reads this`curSector, this`bulkDone, this`bulkCompleted
    {
      if !bulkCompleted && |curSector| == |bulkDone| == |totals| &&
         forall d :: 0 <= d < |totals| ==> curSector[d] <= totals[d]
      then 1 + BulkLeft(totals, curSector, bulkDone)
      else 0
    }

    /** The part of stage 2 that belongs to the bulk phase. */
    method BulkStep()
      requires Valid() && !bulkCompleted
      modifies this`pending, this`dirty, this`next, this`submitted, this`curSector, this`bulkDone, this`bulkCompleted,
               this`audit
      ensures Valid() && Reach(totals, old(Abs()), Abs())
      ensures BulkWork() < old(BulkWork()) && audit == old(audit).(bulkReads := audit.bulkReads)
      ensures dirty <= old(dirty)
    {
      hide Reach, BulkLeft, BooksOk;
      var more := SaveBulkedBlock();
      if !more {
        BooksKeepBulkOver(totals, Abs(), View());
        bulkCompleted := true;
      }
    }

    /** flush_blks, stopped by the rate limit after `budget` blocks. */
    method FlushBlks(budget: nat)
      requires Valid()
      modifies this`queue, this`sent, this`readDone, this`transferred
      ensures Valid() && Reach(totals, old(Abs()), Abs())
      ensures var n := Min(budget, |old(queue)|);
              queue == old(queue)[n..] && sent == old(sent) + old(queue)[..n] && transferred == old(transferred) + n
    {
      hide Valid, Reach;
      ghost var x := Abs();
      ReachSelf(totals, x);
      var n := 0;
      while queue != [] && n < budget
        invariant Valid() && Reach(totals, x, Abs())
        invariant n <= budget && n <= |old(queue)| && queue == old(queue)[n..]
        invariant sent == old(sent) + old(queue)[..n] && transferred == old(transferred) + n
        decreases |queue|
      {
        ghost var y := Abs();
        SendFirst();
        ReachJoin(totals, x, y, Abs());
        n := n + 1;
      }
    }

    /** blk_mig_reset_dirty_cursor */
    method ResetDirtyCursor()
      requires Valid()
      modifies this`curDirty
      ensures Valid() && CleanBelow()
    {
      hide BooksOk;
      BooksKeepDirtyCursor(totals, Abs(), View(), seq(|totals|, _ => 0));
      curDirty := seq(|totals|, _ => 0);
    }

    /** One pass of the loop of stage 2: false when there is nothing left to submit. */
    method LiveStep() returns (more: bool)
      requires Valid()
      modifies this
      ensures Valid() && Reach(totals, old(Abs()), Abs())
      ensures (old(Calm()) ==> Calm() && disk == old(disk)) && audit.stranded == old(audit).stranded
      ensures old(Calm()) && old(CleanBelow()) ==>
                CleanBelow() && (!more ==> forall c :: ValidChunk(totals, c) ==> c !in dirty)
      ensures old(bulkCompleted) ==> bulkCompleted && BulkWork() == old(BulkWork()) && Advanced(old(audit), audit)
      ensures !old(bulkCompleted) ==> more && BulkWork() < old(BulkWork())
      ensures old(bulkCompleted) ==> submitted + readDone == old(submitted + readDone) + if more then 1 else 0
    {
      hide Valid, Reach, Calm;
      more := true;
      if !bulkCompleted {
        BulkStep();
      } else {
        more := SaveDirtyBlock(true);
      }
    }

    /**
      block_save_live for stage 2.  `limit` is the rate limit in blocks, and `budget1` and `budget2`
      are what it allows the two flushes; `mid` is the state between the loop and the second flush.
      The loop submits reads until the limit is reached or nothing is left to read.
     */
    method Stage2(limit: int, budget1: nat, budget2: nat) returns (ghost mid: State)
      requires Valid()
      modifies this
      ensures Valid() && Reach(totals, old(Abs()), mid) && Reach(totals, mid, Abs())
      ensures (old(Calm()) ==> Calm() && disk == old(disk)) && audit.stranded == old(audit).stranded
      ensures old(bulkCompleted) ==> bulkCompleted && Advanced(old(audit), audit)
      ensures |mid.pending| + |mid.queue| >= limit ||
                (bulkCompleted && (old(Calm()) ==> forall c :: ValidChunk(totals, c) ==> c !in mid.dirty))
      ensures !old(bulkCompleted) && |old(pending)| + |old(queue)| - Min(budget1, |old(queue)|) < limit ==>
                BulkWork() < old(BulkWork())
      ensures sent == mid.sent + mid.queue[..Min(budget2, |mid.queue|)]
    {
      hide Valid, Reach, BulkWork, CleanBelow, Calm;
      ghost var x := Abs();
      FlushBlks(budget1);
      ResetDirtyCursor();
      Counters();
      assert submitted + readDone == |old(pending)| + |old(queue)| - Min(budget1, |old(queue)|);
      var more := true;
      while more && submitted + readDone < limit
        invariant Valid() && Reach(totals, x, Abs()) && audit.stranded == old(audit).stranded
        invariant old(Calm()) ==> Calm() && CleanBelow() && disk == old(disk)
        invariant old(bulkCompleted) ==> bulkCompleted && Advanced(old(audit), audit)
        invariant !more ==> bulkCompleted && (old(Calm()) ==> forall c :: ValidChunk(totals, c) ==> c !in dirty)
        invariant BulkWork() < old(BulkWork()) || BulkWork() == old(BulkWork())
        invariant !old(bulkCompleted) && BulkWork() == old(BulkWork()) ==>
                    && !bulkCompleted && more
                    && submitted + readDone == |old(pending)| + |old(queue)| - Min(budget1, |old(queue)|)
        decreases BulkWork(), limit - (submitted + readDone), more
      {
        ghost var y := Abs();
        more := LiveStep();
        ReachJoin(totals, x, y, Abs());
      }
      Counters();
      mid := Abs();
      FlushBlks(budget2);
    }

    lemma Counters()
      requires Valid()
      ensures submitted == |pending| && readDone == |queue|
    {
      hide BulkCovered, Guarded;
    }

    /** Once the bulk phase is over, every chunk has been read; and without overtaking the newest is last. */
    lemma AllRead()
      requires Valid() && bulkCompleted && !audit.stranded
      ensures forall c :: ValidChunk(totals, c) ==> LastOf(All(Abs()), c).Some?
      ensures audit.overtaken || NewestLast(All(Abs()))
    {
      hide LastOf, Guarded, NewestLast;
    }

    /** No two reads of a chunk at once, then none overtook another. */
    lemma NoneOvertaken()
      requires Valid()
      ensures audit.overlapped == {} ==> !audit.overtaken
    {
      hide BulkCovered, BitmapOk;
    }

    /** blk_mig_cleanup frees what is still queued; nothing looks at the queue after the flush. */
    method FreeQueue()
      requires Valid() && !audit.stranded
      modifies this`queue, this`readDone, this`audit
      ensures Valid() && queue == [] && audit == old(audit).(stranded := old(queue) != [])
    {
      hide BooksOk;
      BooksKeepFree(totals, Abs(), View());
      audit := audit.(stranded := queue != []);
      queue, readDone := [], 0;
    }

    /** The loop of stage 3, until no chunk is dirty. */
    method DrainDirty()
      requires Valid() && CleanBelow() && bulkCompleted && pending == [] && queue == [] && writes == {}
      modifies this`disk, this`dirty, this`writes, this`pending, this`queue, this`inflight, this`submitted,
               this`readDone, this`audit, this`waits, this`sent, this`next, this`curDirty
      ensures Valid() && pending == [] && queue == [] && writes == {} && disk == old(disk)
      ensures Advanced(old(audit), audit) && audit.overtaken == old(audit).overtaken
      ensures Reach(totals, old(Abs()), Abs()) && SentNow(totals, old(Abs()), Abs())
      ensures forall c :: ValidChunk(totals, c) ==> c !in dirty
    {
      hide Valid, Reach, SentNow, CleanBelow, Calm;
      ghost var start := Abs();
      ReachSelf(totals, start);
      SentNothing(totals, start);
      var more := true;
      while more
        invariant Valid() && CleanBelow() && pending == [] && queue == [] && writes == {} && disk == old(disk)
        invariant Advanced(old(audit), audit) && audit.overtaken == old(audit).overtaken
        invariant Reach(totals, start, Abs()) && SentNow(totals, start, Abs()) && dirty <= start.dirty
        invariant !more ==> forall c :: ValidChunk(totals, c) ==> c !in dirty
        decreases |dirty|, more
      {
        ghost var y := Abs();
        more := SaveDirtyBlock(false);
        ReachJoin(totals, start, y, Abs());
        SentNowJoin(totals, start, y, Abs());
        SubsetSize(dirty, y.dirty);
      }
    }

    /**
      block_save_live for stage 3: the guest is stopped and no read is in flight.  The flush sends
      `budget` blocks; what it leaves is freed unsent at the end.  `mid` is the state after the flush.
     */
    method Stage3(budget: nat) returns (ghost mid: State)
      requires Valid() && pending == [] && writes == {} && bulkCompleted && !audit.stranded
      modifies this
      ensures Reach(totals, old(Abs()), mid) && mid.pending == [] && mid.writes == {} && mid.disk == disk == old(disk)
      ensures Valid() && bulkCompleted && (audit.overtaken || NewestLast(All(mid)))
      ensures forall c :: ValidChunk(totals, c) ==> LastOf(All(mid), c).Some?
      ensures SentNow(totals, mid.(queue := []), Abs()) && forall c :: ValidChunk(totals, c) ==> c !in dirty
      ensures budget >= |old(queue)| ==> mid.queue == []
      ensures mid.queue == [] ==> Reach(totals, old(Abs()), Abs()) && Finished(totals, Abs())
    {
      hide Valid, Reach, LastOf, SentNow, NewestLast;
      FlushBlks(budget);
      AllRead();
      mid := Abs();
      FreeQueue();
      ResetDirtyCursor();
      DrainDirty();
      if mid.queue == [] {
        assert mid.(queue := []) == mid;
        ReachJoin(totals, old(Abs()), mid, Abs());
        AllRead();
        assert All(Abs()) == sent;
      }
    }
  }

  /** What the bulk phase still has to go through. */
  function BulkLeft(totals: seq<nat>, cur: seq<nat>, done: seq<bool>): nat
    requires |cur| == |done| == |totals| && forall d :: 0 <= d < |totals| ==> cur[d] <= totals[d]
  {
    if totals == [] then 0
    else totals[0] - cur[0] + (if done[0] then 0 else 1) + BulkLeft(totals[1..], cur[1..], done[1..])
  }

  /** Moving one device's cursor on, or marking the device done, leaves less. */
  lemma {:induction false} BulkLeftLess(totals: seq<nat>, cur: seq<nat>, done: seq<bool>, cur': seq<nat>,
                                        done': seq<bool>, d: nat)
    requires |cur| == |done| == |cur'| == |done'| == |totals| && d < |totals|
    requires forall e :: 0 <= e < |totals| ==> cur[e] <= totals[e] && cur'[e] <= totals[e]
    requires forall e :: 0 <= e < |totals| && e != d ==> cur'[e] == cur[e] && done'[e] == done[e]
    requires cur[d] <= cur'[d] && (done[d] ==> done'[d]) && (cur[d] < cur'[d] || (!done[d] && done'[d]))
    ensures BulkLeft(totals, cur', done') < BulkLeft(totals, cur, done)
  {
    if d > 0 {
      BulkLeftLess(totals[1..], cur[1..], done[1..], cur'[1..], done'[1..], d - 1);
    } else {
      assert cur'[1..] == cur[1..] && done'[1..] == done[1..];
    }
  }

  /** After a submission the chunk has a last block, and the others keep theirs. */
  lemma SubmittedLast(x: State, c: ChunkId)
    ensures forall e :: e == c || LastOf(All(x), e).Some? ==> LastOf(All(Submitted(x, c)), e).Some?
  {
    hide LastOf;
    var blank := Block(c, x.next, map[]);
    assert All(Submitted(x, c)) == All(x) + [blank];
    forall e
      ensures e == c || LastOf(All(x), e).Some? ==> LastOf(All(Submitted(x, c)), e).Some?
    {
      LastOfConcat(All(x), [blank], e);
      LastOfOne(blank, e);
    }
  }

  /** The next sector to look at starts the next chunk. */
  lemma NextChunk(totals: seq<nat>, c: ChunkId)
    ensures forall e: ChunkId ::
              e.dev == c.dev && ChunkStart(c) <= ChunkStart(e) < ChunkStart(c) + SECTORS_PER_CHUNK ==> e == c
  {}

  lemma SentOneNow(totals: seq<nat>, x: State, y: State, b: Block)
    requires SendNow(totals, x, y, b) && b.id in x.dirty
    ensures SentNow(totals, x, y)
  {
    hide CopyOf;
    assert y.sent[|x.sent|] == b;
  }

  lemma SentNowJoin(totals: seq<nat>, x: State, y: State, z: State)
    requires SentNow(totals, x, y) && SentNow(totals, y, z) && y.dirty <= x.dirty
    ensures SentNow(totals, x, z)
  {
    forall k | |x.sent| <= k < |z.sent|
      ensures z.sent[k].id in x.dirty && CopyOf(totals, x, z.sent[k])
    {
      if k < |y.sent| {
        assert z.sent[k] == y.sent[k];
      }
    }
    forall c | ValidChunk(totals, c) && c in x.dirty && c !in z.dirty
      ensures exists k :: |x.sent| <= k < |z.sent| && z.sent[k].id == c
    {
      if c in y.dirty {
        var k :| |y.sent| <= k < |z.sent| && z.sent[k].id == c;
      } else {
        var k :| |x.sent| <= k < |y.sent| && y.sent[k].id == c;
        assert z.sent[k].id == c;
      }
    }
  }

  lemma SubsetSize<T>(a: set<T>, b: set<T>)
    requires a <= b
    ensures |a| <= |b|
  {
    assert b == a + (b - a);
  }

  lemma SampleKeepsCovered(totals: seq<nat>, x: State, y: State, k: nat, a: At)
    requires Sample(totals, x, y, k, a)
    ensures forall c :: LastOf(All(x), c).Some? ==> LastOf(All(y), c).Some?
  {
    hide LastOf;
    var n := |x.sent| + |x.queue| + k;
    assert All(y) == All(x)[n := y.pending[k]] && All(x)[n] == x.pending[k];
    assert All(y)[..n] == All(x)[..n] && All(y)[n + 1..] == All(x)[n + 1..];
    forall c
      ensures LastOf(All(x), c).Some? ==> LastOf(All(y), c).Some?
    {
      LastOfAround(All(x), n, c);
      LastOfAround(All(y), n, c);
    }
  }

  lemma ReachJoin(totals: seq<nat>, x: State, y: State, z: State)
    requires Reach(totals, x, y) && Reach(totals, y, z)
    ensures Reach(totals, x, z)
  {
    hide Step;
    var first :| Run(totals, first) && first[0] == x && first[|first| - 1] == y;
    var second :| Run(totals, second) && second[0] == y && second[|second| - 1] == z;
    var run := first + second[1..];
    forall k | 0 <= k < |run| - 1
      ensures Step(totals, run[k], run[k + 1])
    {
      if k >= |first| - 1 {
        var j := k - (|first| - 1);
        assert run[k] == second[j] && run[k + 1] == second[j + 1];
      }
    }
    assert Run(totals, run) && run[0] == x && run[|run| - 1] == z;
  }

  lemma ReachOne(totals: seq<nat>, x: State, y: State)
    requires Step(totals, x, y)
    ensures Reach(totals, x, y)
  {
    hide Step;
    ReachSelf(totals, x);
    ReachStep(totals, x, x, y);
  }

  lemma ReachBySubmit(totals: seq<nat>, x: State, y: State, w: GuestWrite)
    requires Submit(totals, x, y, w)
    ensures Reach(totals, x, y)
  {
    hide Reach, Submit;
    ReachOne(totals, x, y);
  }

  lemma ReachByLand(totals: seq<nat>, x: State, y: State, w: GuestWrite, a: At, v: Sector)
    requires Land(totals, x, y, w, a, v)
    ensures Reach(totals, x, y)
  {
    hide Reach, Land;
    ReachOne(totals, x, y);
  }

  lemma ReachByComplete(totals: seq<nat>, x: State, y: State, w: GuestWrite)
    requires Complete(totals, x, y, w)
    ensures Reach(totals, x, y)
  {
    hide Reach, Complete;
    ReachOne(totals, x, y);
  }

  lemma ReachBySubmitRead(totals: seq<nat>, x: State, y: State, c: ChunkId)
    requires SubmitRead(totals, x, y, c)
    ensures Reach(totals, x, y)
  {
    hide Reach, SubmitRead;
    ReachOne(totals, x, y);
  }

  lemma ReachBySample(totals: seq<nat>, x: State, y: State, k: nat, a: At)
    requires Sample(totals, x, y, k, a)
    ensures Reach(totals, x, y)
  {
    hide Reach, Sample;
    ReachOne(totals, x, y);
  }

  lemma ReachByCompleteRead(totals: seq<nat>, x: State, y: State, k: nat)
    requires CompleteRead(totals, x, y, k)
    ensures Reach(totals, x, y)
  {
    hide Reach, CompleteRead;
    ReachOne(totals, x, y);
  }

  lemma ReachBySend(totals: seq<nat>, x: State, y: State)
    requires Send(x, y)
    ensures Reach(totals, x, y)
  {
    hide Reach, Send;
    ReachOne(totals, x, y);
  }

  lemma ReachBySendNow(totals: seq<nat>, x: State, y: State, b: Block)
    requires SendNow(totals, x, y, b)
    ensures Reach(totals, x, y)
  {
    hide Reach, SendNow;
    ReachOne(totals, x, y);
  }

  /** A completed read keeps the bitmap and the chunks being read in order. */
  lemma ReadCompleted(totals: seq<nat>, x: State, k: nat, cur: seq<nat>, inflight: set<ChunkId>,
                      bulkReads: set<ChunkId>, overlapped: set<ChunkId>)
    requires k < |x.pending| && Full(totals, x.pending[k]) && AllValid(totals, x.pending)
    requires BitmapOk(x.pending, inflight, bulkReads, overlapped)
    ensures Reach(totals, x, Completed(x, k))
    ensures var y, id := Completed(x, k), x.pending[k].id;
            && BitmapOk(y.pending, inflight - {id}, bulkReads - {id}, overlapped)
            && (overlapped == {} ==> !Overtakes(x.pending, k))
            && AllValid(totals, y.pending) && (Behind(x.pending, cur) ==> Behind(y.pending, cur))
            && |y.pending| == |x.pending| - 1 && |y.queue| == |x.queue| + 1
  {
    hide Reach, Full, BitmapOk, AllValid, Behind, Overtakes;
    ReachByCompleteRead(totals, x, Completed(x, k), k);
    BitmapCompleted(x.pending, inflight, bulkReads, overlapped, k);
    AllValidRest(totals, x.pending, k);
    if overlapped == {} {
      NothingOverlapped(x.pending, inflight, bulkReads, k);
    }
    if Behind(x.pending, cur) {
      BehindRest(x.pending, k, cur);
    }
  }

  lemma AccountCompleted(totals: seq<nat>, x: State, k: nat, cur: seq<nat>, overtaken: bool)
    requires k < |x.pending| && |cur| == |totals| && Account(totals, All(x), cur, x.next, overtaken)
    ensures Account(totals, All(Completed(x, k)), cur, x.next, overtaken || Overtakes(x.pending, k))
  {
    hide Covered, All, LastOf, Completed, Overtakes, NewestLast;
    forall b
      ensures b in All(Completed(x, k)) <==> b in All(x)
    {
      CompletedMembers(x, k, b);
    }
    forall c
      ensures LastOf(All(x), c).Some? ==> LastOf(All(Completed(x, k)), c).Some?
    {
      CompletedLast(x, k, c);
    }
    CoveredMore(totals, All(x), All(Completed(x, k)), cur);
    if !overtaken && !Overtakes(x.pending, k) {
      NewestLastCompleted(x, k);
    }
  }

  lemma AccountSubmitted(totals: seq<nat>, x: State, c: ChunkId, cur: seq<nat>, overtaken: bool)
    requires |cur| == |totals| && Account(totals, All(x), cur, x.next, overtaken)
    ensures Account(totals, All(Submitted(x, c)), cur, x.next + 1, overtaken)
  {
    hide Covered, LastOf, NewestLast;
    SubmittedLast(x, c);
    CoveredMore(totals, All(x), All(Submitted(x, c)), cur);
    SubmittedNumbered(x, c);
    if !overtaken {
      SubmittedKeepsOrder(x, c);
    }
  }

  lemma SubmittedNumbered(x: State, c: ChunkId)
    requires Numbered(All(x), x.next)
    ensures Numbered(All(Submitted(x, c)), x.next + 1)
  {
    assert All(Submitted(x, c)) == All(x) + [Block(c, x.next, map[])];
  }

  lemma AccountBulk(totals: seq<nat>, x: State, c: ChunkId, cur: seq<nat>, to: nat, overtaken: bool)
    requires |cur| == |totals| && Account(totals, All(x), cur, x.next, overtaken) && ValidChunk(totals, c)
    requires cur[c.dev] == ChunkStart(c) && to <= ChunkStart(c) + SECTORS_PER_CHUNK
    ensures Account(totals, All(Submitted(x, c)), cur[c.dev := to], x.next + 1, overtaken)
  {
    hide Covered, LastOf, NewestLast, All;
    AccountSubmitted(totals, x, c, cur, overtaken);
    SubmittedLast(x, c);
    CoveredBulk(totals, All(x), All(Submitted(x, c)), cur, c, to);
  }

  lemma AccountSampled(totals: seq<nat>, x: State, y: State, k: nat, a: At, cur: seq<nat>, overtaken: bool)
    requires |cur| == |totals| && Account(totals, All(x), cur, x.next, overtaken) && Sample(totals, x, y, k, a)
    ensures Account(totals, All(y), cur, y.next, overtaken)
  {
    hide Covered, LastOf, NewestLast;
    SampleKeepsCovered(totals, x, y, k, a);
    CoveredMore(totals, All(x), All(y), cur);
    if !overtaken {
      SampleKeepsOrder(totals, x, y, k, a);
    }
    forall b | b in All(y)
      ensures b.serial < y.next
    {
      var i :| 0 <= i < |All(y)| && All(y)[i] == b;
      assert All(x)[i] in All(x) && All(x)[i].serial == b.serial;
    }
  }

  lemma AccountSentNow(totals: seq<nat>, x: State, y: State, b: Block, cur: seq<nat>, overtaken: bool)
    requires |cur| == |totals| && Account(totals, All(x), cur, x.next, overtaken) && SendNow(totals, x, y, b)
    ensures Account(totals, All(y), cur, y.next, overtaken)
  {
    hide Covered, LastOf, NewestLast, CopyOf;
    assert All(y) == All(x) + [b];
    forall c
      ensures LastOf(All(x), c).Some? ==> LastOf(All(y), c).Some?
    {
      LastOfConcat(All(x), [b], c);
    }
    CoveredMore(totals, All(x), All(y), cur);
    if !overtaken {
      SendNowKeepsOrder(totals, x, y, b);
    }
  }

  // ---- The end of a migration ----------------------------------------------------------------------------

  /**
    Stage 3 of a migration that began at x0, and the receiver's disks after loading everything that was
    sent.  The stream makes every receiver exact if and only if the last block sent of every clean chunk
    has the contents of the newest read of it.  It does when no read overtook an earlier one of its chunk
    and the flush drains the queue; and none can have, where no chunk was read twice at once.
   */
  method FinishMigration(saver: BlockSaver, budget: nat, ghost x0: State, dst: map<At, Sector>)
    returns (copy: map<At, Sector>, ghost mid: State)
    requires saver.Valid() && saver.pending == [] && saver.writes == {} && saver.bulkCompleted && !saver.audit.stranded
    requires Start(saver.totals, x0) && Reach(saver.totals, x0, saver.Abs())
    requires HasDisks(saver.totals, dst)
    modifies saver
    ensures Reach(saver.totals, old(saver.Abs()), mid) && mid.disk == saver.disk
    ensures saver.bulkCompleted && copy == LoadedAll(dst, saver.sent)
    ensures budget >= |old(saver.queue)| ==> mid.queue == []
    ensures ExactForAll(saver.totals, saver.Abs()) <==> SentNewest(saver.totals, mid)
    ensures !saver.audit.overtaken && mid.queue == [] ==> SameDisks(saver.totals, saver.disk, copy)
    ensures saver.audit.overlapped == {} ==> !saver.audit.overtaken
  {
    hide Reach, LastOf, LoadedAll, Start, Invariant, SameDisks, SentNewest, NewestLast, SentNow;
    mid := saver.Stage3(budget);
    ReachJoin(saver.totals, x0, old(saver.Abs()), mid);
    StartHolds(saver.totals, x0);
    ReachKeeps(saver.totals, x0, mid);
    assert Settled(saver.totals, mid);
    ExactlyWhenNewest(saver.totals, mid, saver.Abs());
    if !saver.audit.overtaken && mid.queue == [] {
      InOrderIsRight(saver.totals, mid);
    }
    saver.NoneOvertaken();
    copy := LoadStream(dst, saver.sent);
  }

  /** What happens between stage 1 and stage 3: calls of block_save_live, and anything around them. */
  datatype Action = Live(limit: int, budget1: nat, budget2: nat) | World(events: seq<Outside>)

  /**
    A whole migration: stage 1, any mix of stage 2 calls with what the guest and the disks do between
    them, the stop of the guest, which waits for all I/O, and stage 3; then the receiver loads the
    stream.  Stage 3 is entered only when the bulk phase is over.
   */
  method Migrate(totals: seq<nat>, disk: map<At, Sector>, waits: seq<seq<Outside>>, plan: seq<Action>, budget: nat,
                 dst: map<At, Sector>) returns (saver: BlockSaver, ok: bool, copy: map<At, Sector>, ghost mid: State)
    requires HasDisks(totals, disk) && HasDisks(totals, dst)
    requires forall d :: 0 <= d < |totals| ==> totals[d] > 0
    ensures fresh(saver) && saver.totals == totals
    ensures ok <==> saver.bulkCompleted
    ensures ok ==> copy == LoadedAll(dst, saver.sent)
    ensures ok ==> (ExactForAll(totals, saver.Abs()) <==> SentNewest(totals, mid))
    ensures ok && !saver.audit.overtaken && mid.queue == [] ==> SameDisks(totals, saver.disk, copy)
    ensures saver.audit.overlapped == {} ==> !saver.audit.overtaken
  {
    hide Reach, LoadedAll, Start, SameDisks, SentNewest, ExactForAll;
    saver := new BlockSaver(totals, disk, waits);
    ghost var x0 := saver.Abs();
    ReachSelf(totals, x0);
    for n := 0 to |plan|
      invariant saver.Valid() && saver.totals == totals && !saver.audit.stranded && Reach(totals, x0, saver.Abs())
    {
      ghost var y := saver.Abs();
      match plan[n]
      case Live(limit, budget1, budget2) =>
        mid := saver.Stage2(limit, budget1, budget2);
        ReachJoin(totals, x0, y, mid);
        ReachJoin(totals, x0, mid, saver.Abs());
      case World(events) =>
        ghost var trace := saver.HappenAll(events);
        ReachJoin(totals, x0, y, saver.Abs());
    }
    ghost var z := saver.Abs();
    ghost var trace := saver.AioFlush();
    ReachJoin(totals, x0, z, saver.Abs());
    saver.NoneOvertaken();
    ok, copy, mid := saver.bulkCompleted, dst, saver.Abs();
    if ok {
      copy, mid := FinishMigration(saver, budget, x0, dst);
    }
  }

  /** block_load for each block in turn. */
  method LoadStream(dst: map<At, Sector>, blocks: seq<Block>) returns (copy: map<At, Sector>)
    ensures copy == LoadedAll(dst, blocks)
  {
    copy := dst;
    var k := 0;
    while k < |blocks|
      invariant k <= |blocks| && copy == LoadedAll(dst, blocks[..k])
    {
      copy := Loaded(copy, blocks[k]);
      assert blocks[..k + 1][..k] == blocks[..k];
      k := k + 1;
    }
    assert blocks[..k] == blocks;
  }
}
