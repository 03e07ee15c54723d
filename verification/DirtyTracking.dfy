/**
  Dirty-block tracking of block.c: the bitmap with one bit for each chunk of 2048 sectors, its
  counter, and the operations that change them.
 */
module DirtyTracking {

  const SECTORS_PER_CHUNK: nat := 2048

  /** C's integer division, which truncates toward zero. */
  function CDiv(x: int, d: int): int
    requires d > 0
  {
    if x >= 0 then x / d else -((-x) / d)
  }

  /** First and last chunk that set_dirty_bitmap visits for a request. */
  function FirstChunk(sector: nat): nat { sector / SECTORS_PER_CHUNK }

  function LastChunk(sector: nat, nb: nat): int { CDiv(sector + nb - 1, SECTORS_PER_CHUNK) }

  /** A chunk counts as touched when the loop visits it. */
  predicate Touches(sector: nat, nb: nat, chunk: nat) {
    FirstChunk(sector) <= chunk <= LastChunk(sector, nb)
  }

  /** For a request that is not empty, that is exactly when it has a sector in the chunk. */
  lemma TouchesMeansOverlap(sector: nat, nb: nat, chunk: nat)
    requires nb > 0
    ensures Touches(sector, nb, chunk) <==> exists s :: sector <= s < sector + nb && s / SECTORS_PER_CHUNK == chunk
  {
    if Touches(sector, nb, chunk) {
      var s := if chunk == FirstChunk(sector) then sector else chunk * SECTORS_PER_CHUNK;
      assert sector <= s < sector + nb && s / SECTORS_PER_CHUNK == chunk;
    }
  }

  // ---- State and events --------------------------------------------------------------------------------

  /** `bits` is empty and meaningless while tracking is off. */
  datatype Tracker = Tracker(on: bool, bits: seq<bool>, count: int)

  datatype Event =
    | SetTracking(enable: bool)
    | Write(sector: nat, nb: nat)  // a completed write
    | Reset(sector: nat, nb: nat)

  /** Bits in the bitmap that bdrv_set_dirty_tracking allocates, which come in bytes. */
  function BitmapBits(sectors: nat): nat {
    (sectors + SECTORS_PER_CHUNK * 8 - 1) / (SECTORS_PER_CHUNK * 8) * 8
  }

  function CountSet(bits: seq<bool>): nat {
    if bits == [] then 0 else CountSet(bits[..|bits| - 1]) + if bits[|bits| - 1] then 1 else 0
  }

  function SetRange(bits: seq<bool>, first: nat, last: int, v: bool): (r: seq<bool>)
    ensures |r| == |bits|
  {
    seq(|bits|, c requires 0 <= c < |bits| => if first <= c <= last then v else bits[c])
  }

  function Apply(sectors: nat, t: Tracker, e: Event): Tracker {
    match e
    case SetTracking(enable) =>
      if !enable then Tracker(false, [], 0)
      else if t.on then t.(count := 0)
      else Tracker(true, seq(BitmapBits(sectors), _ => false), 0)
    case Write(sector, nb) => if t.on then Marked(t, sector, nb, true) else t
    case Reset(sector, nb) => if t.on then Marked(t, sector, nb, false) else t
  }

  function Marked(t: Tracker, sector: nat, nb: nat, v: bool): Tracker {
    var bits := SetRange(t.bits, FirstChunk(sector), LastChunk(sector, nb), v);
    Tracker(t.on, bits, t.count + CountSet(bits) - CountSet(t.bits))
  }

  function Replay(sectors: nat, events: seq<Event>): Tracker {
    if events == [] then Tracker(false, [], 0)
    else Apply(sectors, Replay(sectors, events[..|events| - 1]), events[|events| - 1])
  }

  /** bdrv_get_dirty */
  predicate GetDirty(sectors: nat, t: Tracker, sector: nat) {
    var chunk := sector / SECTORS_PER_CHUNK;
    t.on && sector < sectors && chunk < |t.bits| && t.bits[chunk]
  }

  // ---- What a run leaves ---------------------------------------------------------------------------------

  /** Tracking is only turned on when it is off. */
  ghost predicate Disciplined(sectors: nat, events: seq<Event>) {
    forall k :: 0 <= k < |events| && events[k] == SetTracking(true) ==> !Replay(sectors, events[..k]).on
  }

  predicate SetsTracking(e: Event) { e.SetTracking? }

  predicate WriteTo(e: Event, chunk: nat) { e.Write? && Touches(e.sector, e.nb, chunk) }

  predicate ResetOf(e: Event, chunk: nat) { e.Reset? && Touches(e.sector, e.nb, chunk) }

  /** Tracking is on: the last change of it turned it on. */
  ghost predicate TrackedSince(events: seq<Event>, start: nat) {
    && start < |events| && events[start] == SetTracking(true)
    && (forall k :: start < k < |events| ==> !SetsTracking(events[k]))
  }

  /** A tracked write touched the chunk and no later reset did. */
  ghost predicate WrittenSince(events: seq<Event>, chunk: nat) {
    exists start: nat, w: nat ::
      && TrackedSince(events, start)
      && start < w < |events| && WriteTo(events[w], chunk)
      && (forall k :: w < k < |events| ==> !ResetOf(events[k], chunk))
  }

  lemma BitmapCovers(sectors: nat, sector: nat)
    requires sector < sectors
    ensures sector / SECTORS_PER_CHUNK < BitmapBits(sectors)
  {}

  lemma {:induction false} CountNone(bits: seq<bool>)
    requires forall c :: 0 <= c < |bits| ==> !bits[c]
    ensures CountSet(bits) == 0
  {
    if bits != [] {
      CountNone(bits[..|bits| - 1]);
    }
  }

  /** The counter is right, and tracking is on exactly when the last change turned it on. */
  lemma {:induction false} CountIsExact(sectors: nat, events: seq<Event>)
    requires Disciplined(sectors, events)
    ensures var t := Replay(sectors, events);
            && t.count == CountSet(t.bits)
            && |t.bits| == (if t.on then BitmapBits(sectors) else 0)
            && (t.on <==> exists start: nat :: TrackedSince(events, start))
  {
    if events != [] {
      var n := |events| - 1;
      var before := events[..n];
      assert forall k :: 0 <= k < n ==> before[..k] == events[..k];
      CountIsExact(sectors, before);
      if events[n].SetTracking? {
        CountNone(seq(BitmapBits(sectors), _ => false));
        if events[n].enable {
          assert events[n] == SetTracking(true) && TrackedSince(events, n);
        } else if start: nat :| TrackedSince(events, start) {
          assert SetsTracking(events[n]);
        }
      } else {
        assert forall start: nat :: TrackedSince(before, start) <==> TrackedSince(events, start) by {
          TrackedSinceStep(events);
        }
      }
    }
  }

  lemma TrackedSinceStep(events: seq<Event>)
    requires events != [] && !events[|events| - 1].SetTracking?
    ensures forall start: nat :: TrackedSince(events[..|events| - 1], start) <==> TrackedSince(events, start)
  {
    var n := |events| - 1;
    forall start: nat
      ensures TrackedSince(events[..n], start) <==> TrackedSince(events, start)
    {
      if TrackedSince(events, start) {
        assert forall k :: start < k < n ==> !SetsTracking(events[k]);
      }
    }
  }

  /** After turning tracking on at `start`, nothing is dirty until a write comes. */
  lemma WrittenSinceStep(events: seq<Event>, chunk: nat)
    requires events != []
    ensures var n := |events| - 1; var e := events[n]; var before := events[..n];
            WrittenSince(events, chunk) <==>
            if e.SetTracking? then false
            else if ResetOf(e, chunk) then false
            else if WriteTo(e, chunk) then exists start: nat :: TrackedSince(before, start)
            else WrittenSince(before, chunk)
  {
    var n := |events| - 1;
    var e, before := events[n], events[..n];
    if e.SetTracking? {
      assert SetsTracking(e);
    } else {
      TrackedSinceStep(events);
      if WriteTo(e, chunk) && !ResetOf(e, chunk) {
        if start: nat :| TrackedSince(before, start) {
          assert TrackedSince(events, start) && WriteTo(events[n], chunk);
        }
      } else if !ResetOf(e, chunk) {
        if WrittenSince(before, chunk) {
          var start: nat, w: nat :| TrackedSince(before, start) && start < w < n && WriteTo(before[w], chunk) &&
                                    (forall k :: w < k < n ==> !ResetOf(before[k], chunk));
          assert TrackedSince(events, start) && WriteTo(events[w], chunk);
        }
        if WrittenSince(events, chunk) {
          var start: nat, w: nat :| TrackedSince(events, start) && start < w <= n && WriteTo(events[w], chunk) &&
                                    (forall k :: w < k < |events| ==> !ResetOf(events[k], chunk));
          assert TrackedSince(before, start) && WriteTo(before[w], chunk);
          assert forall k :: w < k < n ==> !ResetOf(before[k], chunk);
        }
      }
    }
  }

  /** A sector reads as dirty exactly when its chunk was written since, and not reset after. */
  lemma {:induction false} DirtyMeansWritten(sectors: nat, events: seq<Event>, sector: nat)
    requires Disciplined(sectors, events) && sector < sectors
    ensures GetDirty(sectors, Replay(sectors, events), sector) <==>
            WrittenSince(events, sector / SECTORS_PER_CHUNK)
  {
    hide Touches, WrittenSince, TrackedSince, CountSet, LastChunk, FirstChunk, BitmapBits;
    var chunk := sector / SECTORS_PER_CHUNK;
    BitmapCovers(sectors, sector);
    CountIsExact(sectors, events);
    if events == [] {
      NeverWritten(chunk);
    } else {
      var n := |events| - 1;
      assert forall k :: 0 <= k < n ==> events[..n][..k] == events[..k];
      CountIsExact(sectors, events[..n]);
      DirtyMeansWritten(sectors, events[..n], sector);
      WrittenSinceStep(events, chunk);
      if Replay(sectors, events[..n]).on {
        MarkedBit(Replay(sectors, events[..n]), events[n], chunk);
      }
    }
  }

  lemma NeverWritten(chunk: nat)
    ensures !WrittenSince([], chunk)
  {}

  lemma MarkedBit(t: Tracker, e: Event, chunk: nat)
    requires chunk < |t.bits|
    ensures e.Write? ==> Marked(t, e.sector, e.nb, true).bits[chunk] == (t.bits[chunk] || WriteTo(e, chunk))
    ensures e.Reset? ==> Marked(t, e.sector, e.nb, false).bits[chunk] == (t.bits[chunk] && !ResetOf(e, chunk))
  {}

  // ---- Turning tracking on twice ---------------------------------------------------------------------------

  /** Turning tracking on keeps the counter right exactly when it was off or nothing was dirty. */
  lemma EnableKeepsCount(sectors: nat, t: Tracker)
    requires t.count == CountSet(t.bits)
    ensures var u := Apply(sectors, t, SetTracking(true));
            u.count == CountSet(u.bits) <==> !t.on || t.count == 0
  {
    CountNone(seq(BitmapBits(sectors), _ => false));
  }

  /** A run that turns it on twice: one chunk is dirty and the counter says none is. */
  lemma EnabledTwice()
    ensures var t := Replay(2048, [SetTracking(true), Write(0, 1), SetTracking(true)]);
            t.count == 0 && CountSet(t.bits) == 1
  {
    var blank := seq(8, _ => false);
    var e1, e2 := [SetTracking(true)], [SetTracking(true), Write(0, 1)];
    var e3 := e2 + [SetTracking(true)];
    assert e3[..2] == e2 && e2[..1] == e1;
    assert Replay(2048, e1) == Tracker(true, blank, 0) by { assert e1[..0] == []; }
    var bits := SetRange(blank, 0, 0, true);
    assert bits == [true] + seq(7, _ => false);
    assert Replay(2048, e2).bits == bits;
    CountFirst(7);
  }

  lemma {:induction false} CountFirst(n: nat)
    ensures CountSet([true] + seq(n, _ => false)) == 1
  {
    var bits := [true] + seq(n, _ => false);
    if n == 0 {
      assert bits[..0] == [];
    } else {
      assert bits[..n] == [true] + seq(n - 1, _ => false);
      CountFirst(n - 1);
    }
  }

  // ---- The block device's fields ---------------------------------------------------------------------------

  class BlockDevice {
    const sectors: nat
    var on: bool
    var bits: seq<bool>
    var count: int

    constructor (sectors: nat)
      ensures this.sectors == sectors && State() == Replay(sectors, [])
    {
      this.sectors, on, bits, count := sectors, false, [], 0;
    }

    function State(): Tracker
      reads this
    {
      Tracker(on, bits, count)
    }

    /** set_dirty_bitmap; `bits` must reach as far as the device. */
    method SetDirtyBitmap(sector: nat, nb: nat, dirty: bool)
      requires sector + nb <= sectors && sectors <= |bits| * SECTORS_PER_CHUNK && 0 < sectors
      modifies this`bits, this`count
      ensures State() == Marked(old(State()), sector, nb, dirty)
    {
      hide CountSet;
      var start := FirstChunk(sector);
      var end := LastChunk(sector, nb);
      ghost var first := start;
      while start <= end
        invariant first <= start && (start <= end + 1 || start == first)
        invariant |bits| == |old(bits)|
        invariant forall c :: 0 <= c < |bits| ==> bits[c] == if first <= c < start then dirty else old(bits)[c]
        invariant count - CountSet(bits) == old(count) - CountSet(old(bits))
      {
        CountChange(bits, start, dirty);
        if dirty {
          if !bits[start] {
            count := count + 1;
            bits := bits[start := true];
          }
        } else {
          if bits[start] {
            count := count - 1;
            bits := bits[start := false];
          }
        }
        start := start + 1;
      }
      assert bits == SetRange(old(bits), first, end, dirty);
    }

    /** bdrv_set_dirty_tracking */
    method SetDirtyTracking(enable: bool)
      modifies this
      ensures State() == Apply(sectors, old(State()), SetTracking(enable))
    {
      count := 0;
      if enable {
        if !on {
          on, bits := true, seq(BitmapBits(sectors), _ => false);
        }
      } else {
        on, bits := false, [];
      }
    }
  }

  /** Changing one bit changes the number of set bits by that bit. */
  lemma {:induction false} CountChange(bits: seq<bool>, c: nat, v: bool)
    requires c < |bits|
    ensures CountSet(bits[c := v]) == CountSet(bits) + (if v then 1 else 0) - (if bits[c] then 1 else 0)
  {
    var n := |bits| - 1;
    if c == n {
      assert bits[c := v][..n] == bits[..n];
    } else {
      assert bits[c := v][..n] == bits[..n][c := v];
      CountChange(bits[..n], c, v);
    }
  }
}
