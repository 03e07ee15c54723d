/**
  The in-flight bitmap of block-migration.c, which is to keep a chunk from being read while a read of
  it is pending.  Only the dirty phase sets its bits and looks at them; every completed read clears
  its chunk's bit.
 */
module AioBitmap {
  import opened Base
  import opened DirtyTracking
  import opened BlockMigration

  /**
    `inflight` is the bitmap, `bulkReads` the chunks whose bulk read is pending, and `overlapped` the
    chunks that were read while a read of them was pending.  A chunk that was not has at most one
    pending read, which its bit or the bulk phase accounts for.
   */
  ghost predicate BitmapOk(pending: seq<Block>, inflight: set<ChunkId>, bulkReads: set<ChunkId>,
                           overlapped: set<ChunkId>) {
    && (forall c :: c in inflight || c in bulkReads ==> Reading(pending, c))
    && (forall c :: c !in overlapped && Reading(pending, c) ==> c in inflight || c in bulkReads)
    && (forall j, k :: 0 <= j < k < |pending| && pending[j].id == pending[k].id ==> pending[j].id in overlapped)
  }

  lemma ReadingAppend(pending: seq<Block>, b: Block, c: ChunkId)
    ensures Reading(pending + [b], c) <==> Reading(pending, c) || c == b.id
  {
    if k :| 0 <= k < |pending| && pending[k].id == c {
      assert (pending + [b])[k].id == c;
    } else if c == b.id {
      assert (pending + [b])[|pending|].id == c;
    }
  }

  lemma ReadingRest(pending: seq<Block>, k: nat, c: ChunkId)
    requires k < |pending|
    ensures c != pending[k].id ==> (Reading(pending[..k] + pending[k + 1..], c) <==> Reading(pending, c))
    ensures Reading(pending[..k] + pending[k + 1..], c) ==>
              exists j :: 0 <= j < |pending| && j != k && pending[j].id == c
  {
    var rest := pending[..k] + pending[k + 1..];
    if Reading(rest, c) {
      var j :| 0 <= j < |rest| && rest[j].id == c;
      var i := if j < k then j else j + 1;
      assert pending[i] == rest[j];
    }
    if j :| 0 <= j < |pending| && j != k && pending[j].id == c {
      var i := if j < k then j else j - 1;
      assert rest[i] == pending[j];
    }
  }

  /** The dirty phase submits a read and sets the bit. */
  lemma BitmapDirtyRead(pending: seq<Block>, inflight: set<ChunkId>, bulkReads: set<ChunkId>,
                        overlapped: set<ChunkId>, b: Block)
    requires BitmapOk(pending, inflight, bulkReads, overlapped)
    ensures BitmapOk(pending + [b], inflight + {b.id}, bulkReads,
                     if Reading(pending, b.id) then overlapped + {b.id} else overlapped)
  {
    hide Reading;
    forall c ensures Reading(pending + [b], c) <==> Reading(pending, c) || c == b.id {
      ReadingAppend(pending, b, c);
    }
    NewDuplicate(pending, b);
  }

  lemma NewDuplicate(pending: seq<Block>, b: Block)
    ensures forall j :: 0 <= j < |pending| && pending[j].id == b.id ==> Reading(pending, b.id)
  {}

  lemma NotInFlight(pending: seq<Block>, inflight: set<ChunkId>, bulkReads: set<ChunkId>, overlapped: set<ChunkId>,
                    c: ChunkId)
    requires BitmapOk(pending, inflight, bulkReads, overlapped) && !Reading(pending, c)
    ensures c !in inflight
  {}

  /** The bulk phase submits a read of a chunk that has none pending, and leaves the bit alone. */
  lemma BitmapBulkRead(pending: seq<Block>, inflight: set<ChunkId>, bulkReads: set<ChunkId>,
                       overlapped: set<ChunkId>, b: Block)
    requires BitmapOk(pending, inflight, bulkReads, overlapped) && !Reading(pending, b.id)
    ensures BitmapOk(pending + [b], inflight, bulkReads + {b.id}, overlapped)
  {
    hide Reading;
    forall c ensures Reading(pending + [b], c) <==> Reading(pending, c) || c == b.id {
      ReadingAppend(pending, b, c);
    }
    NewDuplicate(pending, b);
  }

  /** A read completes and clears the bit. */
  lemma BitmapCompleted(pending: seq<Block>, inflight: set<ChunkId>, bulkReads: set<ChunkId>,
                        overlapped: set<ChunkId>, k: nat)
    requires BitmapOk(pending, inflight, bulkReads, overlapped) && k < |pending|
    ensures BitmapOk(pending[..k] + pending[k + 1..], inflight - {pending[k].id}, bulkReads - {pending[k].id},
                     overlapped)
  {
    var rest, id := pending[..k] + pending[k + 1..], pending[k].id;
    forall c
      ensures c != id ==> (Reading(rest, c) <==> Reading(pending, c))
      ensures c == id && Reading(rest, c) ==> c in overlapped
    {
      ReadingRest(pending, k, c);
    }
    forall i, j | 0 <= i < j < |rest| && rest[i].id == rest[j].id
      ensures rest[i].id in overlapped
    {
      var p, q := if i < k then i else i + 1, if j < k then j else j + 1;
      assert pending[p] == rest[i] && pending[q] == rest[j];
    }
  }

  /** Reads that go on keep their chunks. */
  lemma BitmapSameIds(p: seq<Block>, q: seq<Block>, inflight: set<ChunkId>, bulkReads: set<ChunkId>,
                      overlapped: set<ChunkId>)
    requires BitmapOk(p, inflight, bulkReads, overlapped)
    requires |p| == |q| && forall k :: 0 <= k < |p| ==> p[k].id == q[k].id
    ensures BitmapOk(q, inflight, bulkReads, overlapped)
  {
    forall c ensures Reading(p, c) <==> Reading(q, c) {
      if k :| 0 <= k < |p| && p[k].id == c {
        assert q[k].id == c;
      }
      if k :| 0 <= k < |q| && q[k].id == c {
        assert p[k].id == c;
      }
    }
  }

  /**
    What the bitmap guards: when the dirty phase finds the bit clear, no read of the chunk is
    pending, unless the bulk read is or a second read was submitted before.
   */
  lemma ClearMeansNoRead(pending: seq<Block>, inflight: set<ChunkId>, bulkReads: set<ChunkId>,
                         overlapped: set<ChunkId>, c: ChunkId)
    requires BitmapOk(pending, inflight, bulkReads, overlapped)
    ensures c !in inflight && c !in bulkReads && c !in overlapped ==> !Reading(pending, c)
  {}

  /** Where no chunk was read twice at once, reads may complete in any order. */
  lemma NothingOverlapped(pending: seq<Block>, inflight: set<ChunkId>, bulkReads: set<ChunkId>, k: nat)
    requires BitmapOk(pending, inflight, bulkReads, {}) && k < |pending|
    ensures Single(pending) && !Overtakes(pending, k)
  {}
}
