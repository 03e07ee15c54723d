/**
  bdrv_commit: the copy of an overlay's sectors into its backing image.
  The guest sees a sector of the overlay where the overlay has one, else the backing image's, else
  zeros.  The driver may fail any operation, and a write that fails may leave anything in the
  sectors it was to write.
 */
module Commit {
  import opened Base

  const COMMIT_BUF_SECTORS: nat := 2048
  const EIO: int := 5

  type Sector = int
  const ZERO_SECTOR: Sector := 0

  /** What a driver does with one operation. */
  datatype Answer = Success | Failure(left: seq<Sector>)

  function BackingAt(backing: seq<Sector>, s: nat): Sector {
    if s < |backing| then backing[s] else ZERO_SECTOR
  }

  function VisibleAt(overlay: map<nat, Sector>, backing: seq<Sector>, s: nat): Sector {
    if s in overlay then overlay[s] else BackingAt(backing, s)
  }

  /** What the guest sees. */
  ghost function Visible(overlay: map<nat, Sector>, backing: seq<Sector>, total: nat): seq<Sector> {
    seq(total, s requires s >= 0 => VisibleAt(overlay, backing, s))
  }

  /** The sectors a driver reports on together, and whether the overlay has them. */
  datatype Extent = Extent(present: bool, n: nat)

  /** What a driver may answer about `sector`: at least one sector, all of them alike. */
  ghost predicate Truthful(overlay: map<nat, Sector>, total: nat, sector: nat, e: Extent) {
    && 0 < e.n <= COMMIT_BUF_SECTORS
    && forall s :: sector <= s < sector + e.n && s < total ==> (s in overlay <==> e.present)
  }

  function Replace(disk: seq<Sector>, at: nat, data: seq<Sector>): (r: seq<Sector>)
    requires at + |data| <= |disk|
    ensures |r| == |disk|
    ensures forall s :: 0 <= s < |disk| ==> r[s] == if at <= s < at + |data| then data[s - at] else disk[s]
  {
    disk[..at] + data + disk[at + |data|..]
  }

  /** Whatever is put in the backing image under allocated sectors, the guest does not see it. */
  lemma HiddenUnderOverlay(overlay: map<nat, Sector>, backing: seq<Sector>, total: nat, at: nat, data: seq<Sector>)
    requires at + |data| <= |backing|
    requires forall s :: at <= s < at + |data| ==> s in overlay
    ensures Visible(overlay, Replace(backing, at, data), total) == Visible(overlay, backing, total)
  {}

  /** The backing image changed at most where the overlay has a sector. */
  ghost predicate OnlyUnder(overlay: map<nat, Sector>, before: seq<Sector>, after: seq<Sector>) {
    |after| == |before| && forall s :: 0 <= s < |before| && s !in overlay ==> after[s] == before[s]
  }

  /** Each of the overlay's first `upto` sectors is in the backing image too. */
  ghost predicate Copied(overlay: map<nat, Sector>, backing: seq<Sector>, upto: nat) {
    forall s :: s in overlay && s < upto ==> s < |backing| && backing[s] == overlay[s]
  }

  /** Once all are copied, dropping any of them from the overlay changes nothing the guest sees. */
  lemma DropCopied(overlay: map<nat, Sector>, backing: seq<Sector>, total: nat, dropped: set<nat>)
    requires Copied(overlay, backing, total)
    ensures Visible(overlay - dropped, backing, total) == Visible(overlay, backing, total)
    ensures Visible(map[], backing, total) == Visible(overlay, backing, total)
  {}

  /** The whole copy stays within both images, following the driver's extents from `sector` on. */
  ghost predicate Fits(extents: nat -> Extent, total: nat, limit: nat, sector: nat)
    requires forall s: nat :: extents(s).n > 0
    decreases total - sector
  {
    sector >= total ||
    var e := extents(sector);
    (e.present ==> sector + e.n <= limit) && Fits(extents, total, limit, sector + e.n)
  }

  /** It does when the backing image is as long as the overlay and no allocated extent passes the end. */
  lemma {:induction false} FitsWhenExtentsEnd(extents: nat -> Extent, total: nat, limit: nat, sector: nat)
    requires forall s: nat :: extents(s).n > 0
    requires total <= limit && forall s: nat :: s < total && extents(s).present ==> s + extents(s).n <= total
    ensures Fits(extents, total, limit, sector)
    decreases total - sector
  {
    if sector < total {
      FitsWhenExtentsEnd(extents, total, limit, sector + extents(sector).n);
    }
  }

  /** It does not for a backing image shorter than the overlay, where the overlay's last sector is allocated. */
  lemma UnfitExample()
    ensures !Fits(s => Extent(true, 1), 2, Min(2, 1), 0)
  {
    var all: nat -> Extent := s => Extent(true, 1);
    assert !Fits(all, 2, 1, 1);
    assert !Fits(all, 2, 1, 0);
  }

  /** The answer to the next driver operation. */
  function Next(answers: seq<Answer>): Answer {
    if answers == [] then Success else answers[0]
  }

  /** What a write leaves in the image: all its data, or whatever a failure left in their place. */
  function Reached(a: Answer, data: seq<Sector>): seq<Sector> {
    if a.Success? then data else a.left[..Min(|a.left|, |data|)]
  }

  class CommitJob {
    const total: nat
    const extents: nat -> Extent
    const hasMakeEmpty: bool
    var overlay: map<nat, Sector>
    var backing: seq<Sector>
    var answers: seq<Answer>
    ghost var seen: seq<seq<Sector>>  // what the guest sees after each change to either image

    ghost predicate Valid()
      reads this`overlay
    {
      forall s :: s in overlay ==> s < total
    }

    /** The driver tells the truth about the overlay. */
    ghost predicate DriverTruthful()
      reads this`overlay
    {
      forall s: nat :: Truthful(overlay, total, s, extents(s))
    }

    ghost predicate Healthy()
      reads this`answers
    {
      forall k :: 0 <= k < |answers| ==> answers[k] == Success
    }

    ghost function Contents(): seq<Sector>
      reads this`overlay, this`backing
    {
      Visible(overlay, backing, total)
    }

    method NextAnswer() returns (a: Answer)
      modifies this`answers
      ensures a == Next(old(answers)) && answers == if old(answers) == [] then [] else old(answers)[1..]
      ensures old(Healthy()) ==> a == Success && Healthy()
    {
      if answers == [] {
        return Success;
      }
      a := answers[0];
      answers := answers[1..];
    }

    /** bdrv_read on the overlay */
    method Read(sector: nat, n: nat) returns (ret: int, data: seq<Sector>)
      modifies this`answers
      ensures ret == if sector + n <= total && Next(old(answers)).Success? then 0 else -EIO
      ensures ret == 0 ==> sector + n <= total && data == Contents()[sector..sector + n]
      ensures old(Healthy()) ==> Healthy() && (ret == 0 <==> sector + n <= total)
    {
      data := [];
      if sector + n > total {
        return -EIO, data;
      }
      var a := NextAnswer();
      if a.Failure? {
        return -EIO, data;
      }
      var o, b := overlay, backing;
      ret, data := 0, seq(n, i requires i >= 0 => VisibleAt(o, b, sector + i));
    }

    /** bdrv_write on the backing image, under sectors that the overlay has */
    method WriteBacking(sector: nat, data: seq<Sector>) returns (ret: int)
      requires forall s :: sector <= s < sector + |data| ==> s in overlay
      modifies this`answers, this`backing, this`seen
      ensures Contents() == old(Contents()) && OnlyUnder(old(overlay), old(backing), backing)
      ensures sector + |data| > |old(backing)| ==> ret == -EIO && backing == old(backing) && seen == old(seen)
      ensures sector + |data| <= |old(backing)| ==>
                && ret == (if Next(old(answers)).Success? then 0 else -EIO)
                && backing == Replace(old(backing), sector, Reached(Next(old(answers)), data))
                && seen == old(seen) + [Contents()]
      ensures old(Healthy()) ==> Healthy() && (ret == 0 <==> sector + |data| <= |backing|)
    {
      if sector + |data| > |backing| {
        return -EIO;
      }
      var a := NextAnswer();
      if a.Failure? {
        var k := Min(|a.left|, |data|);
        HiddenUnderOverlay(overlay, backing, total, sector, a.left[..k]);
        backing := Replace(backing, sector, a.left[..k]);
        seen := seen + [Contents()];
        return -EIO;
      }
      HiddenUnderOverlay(overlay, backing, total, sector, data);
      backing := Replace(backing, sector, data);
      seen := seen + [Contents()];
      return 0;
    }

    /** drv->bdrv_make_empty: a failure may have dropped some of the overlay's sectors */
    method MakeEmpty(dropped: set<nat>) returns (ret: int)
      requires Copied(overlay, backing, total)
      modifies this`answers, this`overlay, this`seen
      ensures overlay.Keys <= old(overlay).Keys && Contents() == old(Contents())
      ensures seen == old(seen) + [Contents()]
      ensures ret == if Next(old(answers)).Success? then 0 else -EIO
      ensures overlay == if ret == 0 then map[] else old(overlay) - dropped
      ensures old(Healthy()) ==> ret == 0 && Healthy()
    {
      DropCopied(overlay, backing, total, dropped);
      var a := NextAnswer();
      if a.Failure? {
        overlay := overlay - dropped;
        ret := -EIO;
      } else {
        overlay := map[];
        ret := 0;
      }
      seen := seen + [Contents()];
    }

    /** One pass of the copy loop. */
    method CopyExtent(sector: nat) returns (ret: int)
      requires Valid() && DriverTruthful() && sector < total
      requires extents(sector).present
      requires Copied(overlay, backing, sector)
      modifies this`answers, this`backing, this`seen
      ensures Contents() == old(Contents()) && OnlyUnder(old(overlay), old(backing), backing)
      ensures (seen == old(seen) && backing == old(backing)) || seen == old(seen) + [Contents()]
      ensures ret == 0 || ret == -EIO
      ensures ret == 0 ==> Copied(overlay, backing, sector + extents(sector).n)
      ensures old(Healthy()) ==> Healthy() && (ret == 0 <==> sector + extents(sector).n <= Min(total, |backing|))
    {
      var n := extents(sector).n;
      assert Truthful(overlay, total, sector, extents(sector));
      var r, buf := Read(sector, n);
      if r != 0 {
        return -EIO;
      }
      r := WriteBacking(sector, buf);
      if r != 0 {
        return -EIO;
      }
      return 0;
    }

    /**
      bdrv_commit, from the copy loop on.  Through every change to either image the guest sees the
      same contents, however the commit ends; when it returns 0 the backing image alone holds them.
      Without driver errors it fails exactly when an extent to copy reaches past either image.
     */
    method Run(dropped: set<nat>) returns (ret: int)
      requires Valid() && DriverTruthful()
      modifies this`answers, this`backing, this`overlay, this`seen
      ensures Contents() == old(Contents()) && OnlyUnder(old(overlay), old(backing), backing)
      ensures old(seen) <= seen && forall k :: |old(seen)| <= k < |seen| ==> seen[k] == old(Contents())
      ensures seen == old(seen) ==> backing == old(backing) && overlay == old(overlay)
      ensures ret == 0 ==> Visible(map[], backing, total) == old(Contents())
      ensures ret == 0 ==> overlay == if hasMakeEmpty then map[] else old(overlay)
      ensures old(Healthy()) ==> (ret == 0 <==> Fits(extents, total, Min(total, |old(backing)|), 0))
    {
      ret := 0;
      var sector := 0;
      ghost var limit := Min(total, |backing|);
      assert forall s: nat :: Truthful(overlay, total, s, extents(s)) ==> extents(s).n > 0;
      while sector < total
        invariant overlay == old(overlay) && Contents() == old(Contents())
        invariant OnlyUnder(old(overlay), old(backing), backing)
        invariant Copied(overlay, backing, sector)
        invariant old(seen) <= seen && forall k :: |old(seen)| <= k < |seen| ==> seen[k] == old(Contents())
        invariant seen == old(seen) ==> backing == old(backing)
        invariant old(Healthy()) ==> Healthy()
        invariant old(Healthy()) ==> (Fits(extents, total, limit, 0) <==> Fits(extents, total, limit, sector))
      {
        assert Truthful(overlay, total, sector, extents(sector));
        if extents(sector).present {
          var r := CopyExtent(sector);
          if r != 0 {
            return -EIO;
          }
        }
        sector := sector + extents(sector).n;
      }
      if hasMakeEmpty {
        ret := MakeEmpty(dropped);
      }
    }
  }
}
