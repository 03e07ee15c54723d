/**
  multiwrite_merge of block.c: joining write requests that are sorted by start sector.
 */
module MultiwriteMerge {
  import opened Base

  const SECTOR: nat := 512
  const IOV_MAX: nat := 1024

  /** BlockRequest: `iov` is the vector of buffers. */
  datatype Request = Request(sector: nat, nb: nat, iov: seq<seq<Octet>>)

  /** The driver's bdrv_merge_requests: asks for two requests to be joined across a gap. */
  type GapMerge = (Request, Request) -> bool

  function Flat(iov: seq<seq<Octet>>): seq<Octet> {
    if iov == [] then [] else iov[0] + Flat(iov[1..])
  }

  function Start(r: Request): nat { SECTOR * r.sector }

  function End(r: Request): nat { SECTOR * (r.sector + r.nb) }

  predicate Wellformed(r: Request) {
    |Flat(r.iov)| == SECTOR * r.nb
  }

  predicate Covers(r: Request, x: nat) {
    Start(r) <= x < End(r)
  }

  function DataAt(r: Request, x: nat): Octet
    requires Wellformed(r) && Covers(r, x)
  {
    Flat(r.iov)[x - Start(r)]
  }

  /** The byte at x after the requests have been written in order over the disk. */
  function Value(disk: nat -> Octet, reqs: seq<Request>, x: nat): Octet
    requires forall k :: 0 <= k < |reqs| ==> Wellformed(reqs[k])
  {
    if reqs == [] then disk(x)
    else if Covers(reqs[|reqs| - 1], x) then DataAt(reqs[|reqs| - 1], x)
    else Value(disk, reqs[..|reqs| - 1], x)
  }

  // ---- Joining two requests -----------------------------------------------------------------------------

  /** qemu_iovec_concat: buffers of src up to `size` bytes, the last one cut to fit. */
  function IovTake(src: seq<seq<Octet>>, size: nat): seq<seq<Octet>> {
    if src == [] || size == 0 then []
    else if src[0] == [] then IovTake(src[1..], size)
    else if |src[0]| > size then [src[0][..size]]
    else [src[0]] + IovTake(src[1..], size - |src[0]|)
  }

  lemma {:induction false} FlatTake(src: seq<seq<Octet>>, size: nat)
    ensures Flat(IovTake(src, size)) == if size <= |Flat(src)| then Flat(src)[..size] else Flat(src)
  {
    if src != [] && size != 0 {
      if src[0] == [] {
        FlatTake(src[1..], size);
      } else if |src[0]| > size {
        assert Flat([src[0][..size]]) == src[0][..size] + Flat([]);
      } else {
        FlatTake(src[1..], size - |src[0]|);
      }
    }
  }

  lemma {:induction false} FlatConcat(a: seq<seq<Octet>>, b: seq<seq<Octet>>)
    ensures Flat(a + b) == Flat(a) + Flat(b)
  {
    if a == [] {
      assert a + b == b;
    } else {
      assert (a + b)[1..] == a[1..] + b;
      FlatConcat(a[1..], b);
    }
  }

  lemma FlatOne(a: seq<Octet>)
    ensures Flat([a]) == a
  {
    assert Flat([a]) == a + Flat([]);
  }

  function Zeros(n: nat): seq<Octet> { seq(n, _ => 0) }

  /** The joined request: the first cut where the second starts, zeros in a gap, the second. */
  function Joined(last: Request, r: Request): Request
    requires last.sector <= r.sector
  {
    var gap: seq<seq<Octet>> := if End(last) < Start(r) then [Zeros(Start(r) - End(last))] else [];
    var iov := IovTake(last.iov, Start(r) - Start(last)) + gap + IovTake(r.iov, |Flat(r.iov)|);
    Request(last.sector, |Flat(iov)| / SECTOR, iov)
  }

  predicate ShouldMerge(gap: GapMerge, last: Request, r: Request) {
    && (Start(r) <= End(last) || gap(last, r))
    && |last.iov| + |r.iov| + 1 <= IOV_MAX
  }

  /**
    The joined request runs from the start of the first to the end of the second; where they overlap it has
    the data of the second, and in a gap zeros.
   */
  lemma JoinedData(last: Request, r: Request)
    requires Wellformed(last) && Wellformed(r) && last.sector <= r.sector
    ensures var j := Joined(last, r);
            && Wellformed(j) && j.sector == last.sector && End(j) == End(r)
            && (forall x: nat :: Covers(j, x) ==>
                  DataAt(j, x) == if x >= Start(r) then DataAt(r, x) else if x >= End(last) then 0 else DataAt(last, x))
  {
    var j := Joined(last, r);
    JoinedFlat(last, r);
    assert |Flat(j.iov)| == SECTOR * (r.sector - last.sector + r.nb);
  }

  lemma JoinedFlat(last: Request, r: Request)
    requires Wellformed(last) && Wellformed(r) && last.sector <= r.sector
    ensures Flat(Joined(last, r).iov) ==
            if Start(r) <= End(last) then Flat(last.iov)[..Start(r) - Start(last)] + Flat(r.iov)
            else Flat(last.iov) + Zeros(Start(r) - End(last)) + Flat(r.iov)
  {
    hide Flat, IovTake, Zeros;
    var size := Start(r) - Start(last);
    FlatTake(last.iov, size);
    FlatTake(r.iov, |Flat(r.iov)|);
    var first, second := IovTake(last.iov, size), IovTake(r.iov, |Flat(r.iov)|);
    if End(last) < Start(r) {
      var zeros := Zeros(Start(r) - End(last));
      FlatConcat(first, [zeros]);
      FlatOne(zeros);
      FlatConcat(first + [zeros], second);
    } else {
      FlatConcat(first, second);
      assert first + [] == first;
    }
  }

  lemma {:induction false} TakeShorter(src: seq<seq<Octet>>, size: nat)
    ensures |IovTake(src, size)| <= |src|
  {
    if src != [] && size != 0 {
      TakeShorter(src[1..], if |src[0]| > size then 0 else size - |src[0]|);
    }
  }

  /** The vector allocated for a joined request is long enough for its buffers. */
  lemma JoinedFits(last: Request, r: Request)
    requires last.sector <= r.sector
    ensures |Joined(last, r).iov| <= |last.iov| + |r.iov| + 1
  {
    TakeShorter(last.iov, Start(r) - Start(last));
    TakeShorter(r.iov, |Flat(r.iov)|);
  }

  // ---- The scan -----------------------------------------------------------------------------------------

  predicate Sorted(reqs: seq<Request>) {
    forall k, l :: 0 <= k < l < |reqs| ==> reqs[k].sector <= reqs[l].sector
  }

  /** One iteration of the loop: `out` are the requests kept so far. */
  function MergeStep(gap: GapMerge, out: seq<Request>, r: Request): seq<Request>
    requires out != [] && out[|out| - 1].sector <= r.sector
  {
    var n := |out| - 1;
    if ShouldMerge(gap, out[n], r) then out[..n] + [Joined(out[n], r)] else out + [r]
  }

  /** The requests that are kept after looking at all of them. */
  function Merged(gap: GapMerge, reqs: seq<Request>): (out: seq<Request>)
    requires reqs != [] && Sorted(reqs)
    ensures 1 <= |out| <= |reqs|
    ensures out[|out| - 1].sector <= reqs[|reqs| - 1].sector
  {
    var n := |reqs| - 1;
    if n == 0 then reqs else MergeStep(gap, Merged(gap, reqs[..n]), reqs[n])
  }

  lemma MergedAppend(gap: GapMerge, reqs: seq<Request>, n: nat)
    requires 0 < n < |reqs| && Sorted(reqs)
    ensures Sorted(reqs[..n]) && Sorted(reqs[..n + 1])
    ensures var out := Merged(gap, reqs[..n]);
            out[|out| - 1].sector <= reqs[n].sector && Merged(gap, reqs[..n + 1]) == MergeStep(gap, out, reqs[n])
  {
    hide MergeStep;
    assert reqs[..n + 1][..n] == reqs[..n];
  }

  ghost predicate AllWellformed(reqs: seq<Request>) {
    forall k :: 0 <= k < |reqs| ==> Wellformed(reqs[k])
  }

  /** The driver never asks for a gap to be filled, as no driver of this version does. */
  ghost predicate NoGaps(gap: GapMerge) {
    forall a, b :: !gap(a, b)
  }

  // ---- What is lost ---------------------------------------------------------------------------------------

  /** Bytes of the request before it that joining request k cuts off. */
  ghost predicate CutOff(gap: GapMerge, reqs: seq<Request>, k: nat, x: nat)
    requires 0 < k < |reqs| && Sorted(reqs)
  {
    var out := Merged(gap, reqs[..k]);
    ShouldMerge(gap, out[|out| - 1], reqs[k]) && End(reqs[k]) <= x < End(reqs[k - 1])
  }

  /** x was cut off by some request, and no later request writes it. */
  ghost predicate Lost(gap: GapMerge, reqs: seq<Request>, x: nat)
    requires Sorted(reqs)
  {
    exists k :: 0 < k < |reqs| && CutOff(gap, reqs, k, x) && forall l :: k < l < |reqs| ==> !Covers(reqs[l], x)
  }

  lemma CutOffEarlier(gap: GapMerge, reqs: seq<Request>, n: nat, k: nat, x: nat)
    requires 0 < k < n <= |reqs| && Sorted(reqs)
    ensures CutOff(gap, reqs[..n], k, x) <==> CutOff(gap, reqs, k, x)
  {
    hide ShouldMerge, Merged;
    assert reqs[..n][..k] == reqs[..k];
  }

  lemma LostStep(gap: GapMerge, reqs: seq<Request>, x: nat)
    requires |reqs| > 1 && Sorted(reqs)
    ensures var n := |reqs| - 1;
            Lost(gap, reqs, x) <==> CutOff(gap, reqs, n, x) || (Lost(gap, reqs[..n], x) && !Covers(reqs[n], x))
  {
    hide CutOff, Covers;
    var n := |reqs| - 1;
    if Lost(gap, reqs, x) {
      var k :| 0 < k < |reqs| && CutOff(gap, reqs, k, x) && forall l :: k < l < |reqs| ==> !Covers(reqs[l], x);
      if k < n {
        CutOffEarlier(gap, reqs, n, k, x);
      }
    }
    if Lost(gap, reqs[..n], x) && !Covers(reqs[n], x) {
      var k :| 0 < k < n && CutOff(gap, reqs[..n], k, x) && forall l :: k < l < n ==> !Covers(reqs[..n][l], x);
      CutOffEarlier(gap, reqs, n, k, x);
      assert forall l :: k < l < n ==> reqs[..n][l] == reqs[l];
    }
  }

  /** The gap in front of request k, when the driver asks for it to be filled. */
  ghost predicate FilledAt(gap: GapMerge, reqs: seq<Request>, k: nat, x: nat)
    requires 0 < k < |reqs| && Sorted(reqs)
  {
    var out := Merged(gap, reqs[..k]);
    ShouldMerge(gap, out[|out| - 1], reqs[k]) && End(reqs[k - 1]) <= x < Start(reqs[k])
  }

  ghost predicate Filled(gap: GapMerge, reqs: seq<Request>, x: nat)
    requires Sorted(reqs)
  {
    exists k :: 0 < k < |reqs| && FilledAt(gap, reqs, k, x)
  }

  lemma FilledEarlier(gap: GapMerge, reqs: seq<Request>, n: nat, k: nat, x: nat)
    requires 0 < k < n <= |reqs| && Sorted(reqs)
    ensures FilledAt(gap, reqs[..n], k, x) <==> FilledAt(gap, reqs, k, x)
    ensures FilledAt(gap, reqs, k, x) ==> x < Start(reqs[k])
  {
    hide ShouldMerge, Merged;
    assert reqs[..n][..k] == reqs[..k];
  }

  lemma FilledStep(gap: GapMerge, reqs: seq<Request>, x: nat)
    requires |reqs| > 1 && Sorted(reqs)
    ensures var n := |reqs| - 1; Filled(gap, reqs, x) <==> FilledAt(gap, reqs, n, x) || Filled(gap, reqs[..n], x)
    ensures Filled(gap, reqs[..|reqs| - 1], x) ==> x < Start(reqs[|reqs| - 1])
  {
    hide FilledAt, Merged;
    var n := |reqs| - 1;
    if k :| 0 < k < n && FilledAt(gap, reqs, k, x) {
      FilledEarlier(gap, reqs, n, k, x);
    }
    if k :| 0 < k < n && FilledAt(gap, reqs[..n], k, x) {
      FilledEarlier(gap, reqs, n, k, x);
      assert reqs[k].sector <= reqs[n].sector;
    }
  }

  /** Where the joined request has data, and whose. */
  lemma JoinedCovers(last: Request, r: Request, x: nat)
    requires Wellformed(last) && Wellformed(r) && last.sector <= r.sector
    ensures var j := Joined(last, r);
            && Wellformed(j)
            && (Covers(r, x) ==> Covers(j, x) && DataAt(j, x) == DataAt(r, x))
            && (!Covers(r, x) && Covers(last, x) && x < End(r) ==> Covers(j, x) && DataAt(j, x) == DataAt(last, x))
            && (End(last) <= x < Start(r) ==> Covers(j, x) && DataAt(j, x) == 0)
            && (!Covers(r, x) && !(End(last) <= x < Start(r)) && (!Covers(last, x) || x >= End(r)) ==> !Covers(j, x))
  {
    hide Flat, Joined;
    JoinedData(last, r);
  }

  lemma ValueAppend(disk: nat -> Octet, reqs: seq<Request>, r: Request, x: nat)
    requires AllWellformed(reqs) && Wellformed(r)
    ensures Value(disk, reqs + [r], x) == if Covers(r, x) then DataAt(r, x) else Value(disk, reqs, x)
  {
    hide Flat;
    assert (reqs + [r])[..|reqs|] == reqs;
  }

  /** One iteration keeps requests wellformed, and the last one ends where r ends. */
  lemma StepShape(gap: GapMerge, out: seq<Request>, r: Request)
    requires out != [] && out[|out| - 1].sector <= r.sector
    requires AllWellformed(out) && Wellformed(r)
    ensures var next := MergeStep(gap, out, r); AllWellformed(next) && next != [] && End(next[|next| - 1]) == End(r)
  {
    hide Wellformed, Joined;
    if ShouldMerge(gap, out[|out| - 1], r) {
      JoinedData(out[|out| - 1], r);
    }
  }

  /** What one iteration does to the byte at x. */
  lemma StepValue(gap: GapMerge, out: seq<Request>, r: Request, disk: nat -> Octet, x: nat)
    requires out != [] && out[|out| - 1].sector <= r.sector
    requires AllWellformed(out) && Wellformed(r)
    ensures AllWellformed(MergeStep(gap, out, r))
    ensures var m := |out| - 1;
            Value(disk, MergeStep(gap, out, r), x) ==
            if Covers(r, x) then DataAt(r, x)
            else if ShouldMerge(gap, out[m], r) && End(r) <= x < End(out[m]) then Value(disk, out[..m], x)
            else if ShouldMerge(gap, out[m], r) && End(out[m]) <= x < Start(r) then 0
            else Value(disk, out, x)
  {
    hide Joined, Value, Wellformed;
    StepShape(gap, out, r);
    var m := |out| - 1;
    assert out == out[..m] + [out[m]];
    ValueAppend(disk, out[..m], out[m], x);
    if ShouldMerge(gap, out[m], r) {
      JoinedCovers(out[m], r, x);
      ValueAppend(disk, out[..m], Joined(out[m], r), x);
    } else {
      ValueAppend(disk, out, r, x);
    }
  }

  /** The last kept request ends where the last request ends. */
  lemma {:induction false} MergedShape(gap: GapMerge, reqs: seq<Request>)
    requires reqs != [] && Sorted(reqs) && AllWellformed(reqs)
    ensures var out := Merged(gap, reqs);
            && AllWellformed(out) && End(out[|out| - 1]) == End(reqs[|reqs| - 1])
    decreases |reqs|
  {
    hide Wellformed, MergeStep, End;
    var n := |reqs| - 1;
    if n > 0 {
      MergedShape(gap, reqs[..n]);
      StepShape(gap, Merged(gap, reqs[..n]), reqs[n]);
    }
  }

  /** Wherever nothing is lost, the kept requests write what the given ones write, and zeros into filled gaps. */
  lemma {:induction false} AgreeUnlessLost(gap: GapMerge, reqs: seq<Request>, disk: nat -> Octet, x: nat)
    requires reqs != [] && Sorted(reqs) && AllWellformed(reqs)
    requires !Lost(gap, reqs, x)
    ensures AllWellformed(Merged(gap, reqs))
    ensures Value(disk, Merged(gap, reqs), x) == if Filled(gap, reqs, x) then 0 else Value(disk, reqs, x)
    decreases |reqs|
  {
    hide Wellformed, MergeStep, Lost, Filled, Covers, Value, ShouldMerge;
    MergedShape(gap, reqs);
    var n := |reqs| - 1;
    if n > 0 {
      var r, before := reqs[n], reqs[..n];
      MergedShape(gap, before);
      LostStep(gap, reqs, x);
      FilledStep(gap, reqs, x);
      assert reqs == before + [r];
      ValueAppend(disk, before, r, x);
      StepValue(gap, Merged(gap, before), r, disk, x);
      if Covers(r, x) {
        CoversMeans(r, x);
      } else {
        AgreeUnlessLost(gap, before, disk, x);
      }
    } else {
      NothingFilled(gap, reqs, x);
    }
  }

  lemma CoversMeans(r: Request, x: nat)
    requires Covers(r, x)
    ensures Start(r) <= x < End(r)
  {}

  lemma NothingFilled(gap: GapMerge, reqs: seq<Request>, x: nat)
    requires Sorted(reqs) && (NoGaps(gap) || |reqs| == 1) && AllWellformed(reqs)
    ensures !Filled(gap, reqs, x)
  {
    hide Wellformed, Merged;
    forall k | 0 < k < |reqs|
      ensures !FilledAt(gap, reqs, k, x)
    {
      MergedShape(gap, reqs[..k]);
    }
  }

  /** Nothing is lost when no request ends before the one in front of it. */
  lemma NothingCutOff(gap: GapMerge, reqs: seq<Request>, x: nat)
    requires Sorted(reqs) && forall k :: 0 < k < |reqs| ==> End(reqs[k - 1]) <= End(reqs[k])
    ensures !Lost(gap, reqs, x)
  {}

  /**
    When, in sorted order, no request ends before an earlier one, the requests that are left write
    every disk exactly as the given ones do, but for zeros in the gaps that the driver asked to fill;
    also where IOV_MAX keeps requests apart.
   */
  lemma MergePreservesMeaning(gap: GapMerge, reqs: seq<Request>, disk: nat -> Octet, x: nat)
    requires reqs != [] && Sorted(reqs) && AllWellformed(reqs)
    requires forall k :: 0 < k < |reqs| ==> End(reqs[k - 1]) <= End(reqs[k])
    ensures AllWellformed(Merged(gap, reqs))
    ensures Value(disk, Merged(gap, reqs), x) == if Filled(gap, reqs, x) then 0 else Value(disk, reqs, x)
    ensures NoGaps(gap) ==> Value(disk, Merged(gap, reqs), x) == Value(disk, reqs, x)
  {
    hide Wellformed, Lost, Filled, NoGaps;
    NothingCutOff(gap, reqs, x);
    AgreeUnlessLost(gap, reqs, disk, x);
    if NoGaps(gap) {
      NothingFilled(gap, reqs, x);
    }
  }

  // ---- Exactly when meaning is preserved -------------------------------------------------------------------

  ghost predicate AllFit(reqs: seq<Request>) {
    forall k :: 0 <= k < |reqs| ==> |reqs[k].iov| <= IOV_MAX
  }

  /** Requests of at most IOV_MAX buffers are merged into requests of at most IOV_MAX buffers. */
  lemma {:induction false} MergedFits(gap: GapMerge, reqs: seq<Request>)
    requires reqs != [] && Sorted(reqs) && AllFit(reqs)
    ensures AllFit(Merged(gap, reqs))
    decreases |reqs|
  {
    hide Joined;
    var n := |reqs| - 1;
    if n > 0 {
      MergedFits(gap, reqs[..n]);
      var out := Merged(gap, reqs[..n]);
      JoinedFits(out[|out| - 1], reqs[n]);
    }
  }

  /** IOV_MAX is never reached. */
  ghost predicate NeverFull(gap: GapMerge, reqs: seq<Request>)
    requires Sorted(reqs)
  {
    forall k :: 0 < k < |reqs| ==> FitsAt(gap, reqs, k)
  }

  ghost predicate FitsAt(gap: GapMerge, reqs: seq<Request>, k: nat)
    requires 0 < k < |reqs| && Sorted(reqs)
  {
    var out := Merged(gap, reqs[..k]);
    |out[|out| - 1].iov| + |reqs[k].iov| + 1 <= IOV_MAX
  }

  lemma FitsEarlier(gap: GapMerge, reqs: seq<Request>, n: nat, k: nat)
    requires 0 < k < n <= |reqs| && Sorted(reqs)
    ensures FitsAt(gap, reqs[..n], k) == FitsAt(gap, reqs, k)
  {
    hide Merged;
    assert reqs[..n][..k] == reqs[..k];
  }

  /** Then a byte is cut off exactly when consecutive requests touch and the second ends first. */
  lemma CutOffMeans(gap: GapMerge, reqs: seq<Request>, k: nat, x: nat)
    requires 0 < k < |reqs| && Sorted(reqs) && AllWellformed(reqs) && NoGaps(gap) && NeverFull(gap, reqs)
    ensures CutOff(gap, reqs, k, x) <==>
            Start(reqs[k]) <= End(reqs[k - 1]) && End(reqs[k]) <= x < End(reqs[k - 1])
  {
    hide Merged, Wellformed;
    MergedShape(gap, reqs[..k]);
    assert FitsAt(gap, reqs, k);
  }

  ghost predicate Uncovered(reqs: seq<Request>, x: nat) {
    forall g :: 0 <= g < |reqs| ==> !Covers(reqs[g], x)
  }

  /** All kept requests but the last end before the last one starts. */
  ghost predicate Separated(out: seq<Request>) {
    out != [] && forall g :: 0 <= g < |out| - 1 ==> End(out[g]) <= Start(out[|out| - 1])
  }

  lemma StepUncovered(gap: GapMerge, out: seq<Request>, r: Request, x: nat)
    requires Separated(out) && out[|out| - 1].sector <= r.sector
    requires AllWellformed(out) && Wellformed(r) && NoGaps(gap)
    requires |out[|out| - 1].iov| + |r.iov| + 1 <= IOV_MAX
    ensures Separated(MergeStep(gap, out, r))
    ensures var last := out[|out| - 1];
            ShouldMerge(gap, last, r) && End(r) <= x < End(last) ==> Uncovered(MergeStep(gap, out, r), x)
    ensures Uncovered(out, x) && !Covers(r, x) ==> Uncovered(MergeStep(gap, out, r), x)
  {
    hide Wellformed, Joined;
    var m := |out| - 1;
    if ShouldMerge(gap, out[m], r) {
      JoinedData(out[m], r);
      var next := MergeStep(gap, out, r);
      assert forall g :: 0 <= g < m ==> next[g] == out[g];
    }
  }

  /** A lost byte is written by none of the requests that are left. */
  lemma {:induction false} LostIsUncovered(gap: GapMerge, reqs: seq<Request>, x: nat)
    requires reqs != [] && Sorted(reqs) && AllWellformed(reqs) && NoGaps(gap) && NeverFull(gap, reqs)
    ensures Separated(Merged(gap, reqs)) && (Lost(gap, reqs, x) ==> Uncovered(Merged(gap, reqs), x))
    decreases |reqs|
  {
    hide Wellformed, Merged, MergeStep, Lost, Uncovered, Separated, Covers, ShouldMerge, Sorted, NeverFull, CutOff;
    var n := |reqs| - 1;
    if n == 0 {
      AloneIsSeparated(gap, reqs, x);
    } else {
      EarlierFacts(gap, reqs, n, x);
      LostIsUncovered(gap, reqs[..n], x);
      LostStep(gap, reqs, x);
      StepUncovered(gap, Merged(gap, reqs[..n]), reqs[n], x);
    }
  }

  /** What the last iteration starts from. */
  lemma EarlierFacts(gap: GapMerge, reqs: seq<Request>, n: nat, x: nat)
    requires 0 < n && n + 1 == |reqs|
    requires Sorted(reqs) && AllWellformed(reqs) && NoGaps(gap) && NeverFull(gap, reqs)
    ensures Sorted(reqs[..n]) && AllWellformed(reqs[..n]) && NeverFull(gap, reqs[..n])
    ensures var out := Merged(gap, reqs[..n]);
            && out[|out| - 1].sector <= reqs[n].sector
            && Merged(gap, reqs) == MergeStep(gap, out, reqs[n]) && AllWellformed(out)
            && |out[|out| - 1].iov| + |reqs[n].iov| + 1 <= IOV_MAX
            && (CutOff(gap, reqs, n, x) ==>
                  ShouldMerge(gap, out[|out| - 1], reqs[n]) && End(reqs[n]) <= x < End(out[|out| - 1]))
  {
    hide Wellformed, Merged, MergeStep, ShouldMerge;
    NeverFullEarlier(gap, reqs, n);
    MergedShape(gap, reqs[..n]);
    MergedAppend(gap, reqs, n);
    assert reqs[..n + 1] == reqs && FitsAt(gap, reqs, n);
  }

  lemma AloneIsSeparated(gap: GapMerge, reqs: seq<Request>, x: nat)
    requires |reqs| == 1 && Sorted(reqs)
    ensures Separated(Merged(gap, reqs)) && !Lost(gap, reqs, x)
  {}

  lemma NeverFullEarlier(gap: GapMerge, reqs: seq<Request>, n: nat)
    requires Sorted(reqs) && NeverFull(gap, reqs) && n <= |reqs|
    ensures Sorted(reqs[..n]) && NeverFull(gap, reqs[..n])
  {
    hide Merged, FitsAt;
    forall k | 0 < k < n
      ensures FitsAt(gap, reqs[..n], k)
    {
      FitsEarlier(gap, reqs, n, k);
    }
  }

  lemma {:induction false} ValueUncovered(disk: nat -> Octet, reqs: seq<Request>, x: nat)
    requires AllWellformed(reqs) && Uncovered(reqs, x)
    ensures Value(disk, reqs, x) == disk(x)
  {
    hide Wellformed, Covers;
    if reqs != [] {
      ValueUncovered(disk, reqs[..|reqs| - 1], x);
    }
  }

  /** A covered byte does not depend on the disk. */
  lemma {:induction false} ValueCovered(disk: nat -> Octet, other: nat -> Octet, reqs: seq<Request>, x: nat)
    requires AllWellformed(reqs) && !Uncovered(reqs, x)
    ensures Value(disk, reqs, x) == Value(other, reqs, x)
  {
    hide Wellformed, Covers;
    var n := |reqs| - 1;
    if !Covers(reqs[n], x) {
      var g :| 0 <= g < |reqs| && Covers(reqs[g], x);
      assert reqs[..n][g] == reqs[g];
      ValueCovered(disk, other, reqs[..n], x);
    }
  }

  lemma LostIsCovered(gap: GapMerge, reqs: seq<Request>, x: nat)
    requires Sorted(reqs) && AllWellformed(reqs) && Lost(gap, reqs, x)
    ensures !Uncovered(reqs, x)
  {
    hide ShouldMerge, Merged, Wellformed;
    var k :| 0 < k < |reqs| && CutOff(gap, reqs, k, x) && forall l :: k < l < |reqs| ==> !Covers(reqs[l], x);
    assert reqs[k - 1].sector <= reqs[k].sector;
    assert Covers(reqs[k - 1], x);
  }

  ghost predicate SameMeaning(gap: GapMerge, reqs: seq<Request>)
    requires reqs != [] && Sorted(reqs) && AllWellformed(reqs) && AllWellformed(Merged(gap, reqs))
  {
    forall disk: nat -> Octet, x: nat :: Value(disk, Merged(gap, reqs), x) == Value(disk, reqs, x)
  }

  /** Merging preserves meaning if and only if every byte that is cut off is written again later. */
  lemma MeaningPreservedExactly(gap: GapMerge, reqs: seq<Request>)
    requires reqs != [] && Sorted(reqs) && AllWellformed(reqs) && NoGaps(gap) && NeverFull(gap, reqs)
    ensures AllWellformed(Merged(gap, reqs))
    ensures SameMeaning(gap, reqs) <==> forall x: nat :: !Lost(gap, reqs, x)
  {
    hide Wellformed, Merged, Lost, Filled, Value;
    MergedShape(gap, reqs);
    forall disk: nat -> Octet, x: nat | !Lost(gap, reqs, x)
      ensures Value(disk, Merged(gap, reqs), x) == Value(disk, reqs, x)
    {
      AgreeUnlessLost(gap, reqs, disk, x);
      NothingFilled(gap, reqs, x);
    }
    forall x: nat | Lost(gap, reqs, x)
      ensures !SameMeaning(gap, reqs)
    {
      LostIsUncovered(gap, reqs, x);
      LostIsCovered(gap, reqs, x);
      var zeros: nat -> Octet, ones: nat -> Octet := (_: nat) => 0, (_: nat) => 1;
      ValueUncovered(zeros, Merged(gap, reqs), x);
      ValueUncovered(ones, Merged(gap, reqs), x);
      ValueCovered(zeros, ones, reqs, x);
    }
  }

  /** Two overlapping requests of which the second ends first: the tail of the first is never written. */
  lemma CutOffExample(gap: GapMerge)
    requires NoGaps(gap)
    ensures var reqs := [Request(0, 4, [Zeros(2048)]), Request(1, 1, [Zeros(512)])];
            && Sorted(reqs) && AllWellformed(reqs) && AllWellformed(Merged(gap, reqs))
            && Lost(gap, reqs, 1024) && !SameMeaning(gap, reqs)
  {
    var a, b := Request(0, 4, [Zeros(2048)]), Request(1, 1, [Zeros(512)]);
    var reqs := [a, b];
    assert Flat(a.iov) == Zeros(2048) + Flat([]) && Flat(b.iov) == Zeros(512) + Flat([]);
    assert reqs[..1] == [a] && Merged(gap, [a]) == [a];
    assert FitsAt(gap, reqs, 1);
    CutOffMeans(gap, reqs, 1, 1024);
    assert CutOff(gap, reqs, 1, 1024);
    assert Lost(gap, reqs, 1024);
    hide Lost, Merged, Flat;
    MeaningPreservedExactly(gap, reqs);
  }

  // ---- The loop, in place ------------------------------------------------------------------------------------

  lemma MergedOne(gap: GapMerge, reqs: seq<Request>)
    requires reqs != [] && Sorted(reqs)
    ensures Sorted(reqs[..1]) && Merged(gap, reqs[..1]) == reqs[..1]
  {}

  /** One pass of the loop. */
  method MergeNext(reqs: array<Request>, outidx: nat, i: nat, gap: GapMerge) returns (next: nat)
    requires outidx < i < reqs.Length && reqs[outidx].sector <= reqs[i].sector
    modifies reqs
    ensures next <= outidx + 1
    ensures reqs[..next + 1] == MergeStep(gap, old(reqs[..outidx + 1]), old(reqs[i]))
    ensures forall k :: i < k < reqs.Length ==> reqs[k] == old(reqs[k])
  {
    hide ShouldMerge, Joined;
    ghost var out := reqs[..outidx + 1];
    if ShouldMerge(gap, reqs[outidx], reqs[i]) {
      reqs[outidx] := Joined(reqs[outidx], reqs[i]);
      assert reqs[..outidx + 1] == out[..outidx] + [reqs[outidx]];
      return outidx;
    }
    reqs[outidx + 1] := reqs[i];
    assert reqs[..outidx + 2] == out + [reqs[outidx + 1]];
    return outidx + 1;
  }

  /** multiwrite_merge after the sort: the requests that remain are at the front of the array. */
  method Merge(reqs: array<Request>, num: nat, gap: GapMerge) returns (count: nat)
    requires 1 <= num <= reqs.Length && Sorted(reqs[..num])
    modifies reqs
    ensures 1 <= count <= num && reqs[..count] == Merged(gap, old(reqs[..num]))
    ensures reqs[num..] == old(reqs[num..])
  {
    hide MergeStep, Merged, Sorted;
    ghost var given := reqs[..num];
    var outidx := 0;
    MergedOne(gap, given);
    assert reqs[..1] == given[..1];
    for i := 1 to num
      invariant 0 <= outidx < i <= num && Sorted(given[..i])
      invariant reqs[..outidx + 1] == Merged(gap, given[..i])
      invariant forall k :: i <= k < reqs.Length ==> reqs[k] == old(reqs[k])
    {
      MergedAppend(gap, given, i);
      assert reqs[i] == given[i] && reqs[..outidx + 1][outidx] == reqs[outidx];
      outidx := MergeNext(reqs, outidx, i, gap);
    }
    assert given[..num] == given;
    return outidx + 1;
  }
}
