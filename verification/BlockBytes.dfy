/**
  bdrv_pread and bdrv_pwrite: access to bytes over a device that reads and writes whole sectors.
  The disk is a flat array of bytes.  The driver may fail any operation, and a write that fails
  may have put some of its leading sectors on the disk.
 */
module BlockBytes {
  import opened Base

  const SECTOR: nat := 512
  const EIO: int := 5
  const EACCES: int := 13
  const ENOMEDIUM: int := 123

  /** What the driver does with one operation: a failing write first writes `torn` sectors. */
  datatype Answer = Success | Failure(torn: nat)

  ghost predicate Within(size: nat, offset: int, count: nat) {
    0 <= offset && offset + count <= size
  }

  /** The bytes of a disk after `data` is written at `offset`. */
  function Overwritten(disk: seq<Octet>, offset: int, data: seq<Octet>): (r: seq<Octet>)
    requires Within(|disk|, offset, |data|)
    ensures |r| == |disk|
    ensures forall i :: 0 <= i < |disk| ==> r[i] == if offset <= i < offset + |data| then data[i - offset] else disk[i]
  {
    disk[..offset] + data + disk[offset + |data|..]
  }

  /** Each byte is the old one, or the one a write of `data` at `offset` asks for. */
  ghost predicate PartlyWritten(before: seq<Octet>, after: seq<Octet>, offset: int, data: seq<Octet>) {
    && |after| == |before|
    && forall i :: 0 <= i < |before| ==>
         after[i] == before[i] || (offset <= i < offset + |data| && after[i] == data[i - offset])
  }

  /** `data` is what the disk holds at `offset`. */
  ghost predicate Holds(disk: seq<Octet>, offset: int, data: seq<Octet>) {
    data == [] || (Within(|disk|, offset, |data|) && data == disk[offset..offset + |data|])
  }

  /** `after` is `before` with exactly the bytes of `data` replaced. */
  ghost predicate Written(before: seq<Octet>, after: seq<Octet>, offset: int, data: seq<Octet>) {
    if data == [] then after == before
    else Within(|before|, offset, |data|) && after == Overwritten(before, offset, data)
  }

  lemma NothingHeld(disk: seq<Octet>, offset: int)
    ensures Holds(disk, offset, [])
  {}

  lemma HoldsWithin(disk: seq<Octet>, offset: int, data: seq<Octet>)
    requires Holds(disk, offset, data)
    ensures data == [] || Within(|disk|, offset, |data|)
  {}

  lemma HoldsPart(disk: seq<Octet>, offset: int, data: seq<Octet>, from: nat, len: nat)
    requires Holds(disk, offset, data) && from + len <= |data|
    ensures Holds(disk, offset + from, data[from..from + len])
  {
    if len > 0 {
      var part, there := data[from..from + len], disk[offset + from..offset + from + len];
      assert forall k :: 0 <= k < |part| ==> part[k] == data[from + k];
      assert forall k :: 0 <= k < |there| ==> there[k] == disk[offset + from + k];
      assert part == there;
    }
  }

  /** Two adjacent pieces of the disk make one. */
  lemma HoldsJoin(disk: seq<Octet>, offset: int, data: seq<Octet>, more: seq<Octet>)
    requires Holds(disk, offset, data) && Holds(disk, offset + |data|, more)
    ensures Holds(disk, offset, data + more)
  {
    if data == [] {
      assert data + more == more;
    } else if more == [] {
      assert data + more == data;
    }
  }

  /** Writing the next piece of the data extends what is written. */
  lemma WrittenJoin(before: seq<Octet>, mid: seq<Octet>, after: seq<Octet>, offset: int, data: seq<Octet>,
                    lo: nat, hi: nat)
    requires lo <= hi <= |data|
    requires Written(before, mid, offset, data[..lo]) && Written(mid, after, offset + lo, data[lo..hi])
    ensures Written(before, after, offset, data[..hi])
  {
    if lo == hi {
      assert data[lo..hi] == [];
    } else if lo > 0 {
      assert |data[..lo]| == lo;
      forall i | 0 <= i < |after|
        ensures after[i] == Overwritten(before, offset, data[..hi])[i]
      {
        if offset + lo <= i < offset + hi {
          assert data[lo..hi][i - (offset + lo)] == data[..hi][i - offset];
        }
      }
    } else {
      assert data[..hi] == data[lo..hi];
    }
  }

  /** Writing a piece of the data after part of it was written leaves part of it written. */
  lemma PartlyJoin(before: seq<Octet>, mid: seq<Octet>, after: seq<Octet>, offset: int, data: seq<Octet>,
                   lo: nat, hi: nat)
    requires lo <= hi <= |data|
    requires PartlyWritten(before, mid, offset, data)
    requires PartlyWritten(mid, after, offset + lo, data[lo..hi])
    ensures PartlyWritten(before, after, offset, data)
  {
    forall i | 0 <= i < |before|
      ensures after[i] == before[i] || (offset <= i < offset + |data| && after[i] == data[i - offset])
    {
      if after[i] != mid[i] {
        assert data[lo..hi][i - (offset + lo)] == data[i - offset];
      }
    }
  }

  /** The first `done` bytes of the data are written and nothing else has changed. */
  ghost predicate WrittenUpTo(before: seq<Octet>, now: seq<Octet>, offset: int, data: seq<Octet>, done: nat) {
    done <= |data| && Written(before, now, offset, data[..done]) && PartlyWritten(before, now, offset, data)
  }

  lemma NothingWritten(disk: seq<Octet>, offset: int, data: seq<Octet>)
    ensures WrittenUpTo(disk, disk, offset, data, 0)
  {
    assert data[..0] == [];
  }

  lemma NextWritten(before: seq<Octet>, mid: seq<Octet>, after: seq<Octet>, offset: int, data: seq<Octet>,
                    lo: nat, hi: nat)
    requires lo <= hi <= |data| && WrittenUpTo(before, mid, offset, data, lo)
    requires PartlyWritten(mid, after, offset + lo, data[lo..hi])
    ensures PartlyWritten(before, after, offset, data)
    ensures Written(mid, after, offset + lo, data[lo..hi]) ==> WrittenUpTo(before, after, offset, data, hi)
  {
    PartlyJoin(before, mid, after, offset, data, lo, hi);
    if Written(mid, after, offset + lo, data[lo..hi]) {
      WrittenJoin(before, mid, after, offset, data, lo, hi);
    }
  }

  lemma AllWritten(before: seq<Octet>, after: seq<Octet>, offset: int, data: seq<Octet>)
    requires WrittenUpTo(before, after, offset, data, |data|)
    ensures Written(before, after, offset, data) && PartlyWritten(before, after, offset, data)
    ensures data == [] || Within(|before|, offset, |data|)
  {
    assert data[..|data|] == data;
  }

  /** The tail of a range is on the disk if the range is. */
  lemma TailWithin(size: nat, offset: int, count: nat, from: nat)
    requires from <= count && Within(size, offset, count)
    ensures Within(size, offset + from, count - from)
  {}

  /** A read after a write returns what was written. */
  lemma ReadAfterWrite(before: seq<Octet>, after: seq<Octet>, offset: int, data: seq<Octet>, got: seq<Octet>)
    requires Written(before, after, offset, data)
    requires |got| == |data| && Holds(after, offset, got)
    ensures got == data
  {}

  /** A run of sectors each of which holds a byte of the range is on the disk if the range is. */
  lemma Touched(size: nat, offset: int, count: nat, sector: int, nb: nat)
    requires size % SECTOR == 0
    requires nb > 0 && offset < (sector + 1) * SECTOR && (sector + nb - 1) * SECTOR < offset + count
    ensures Within(size, offset, count) ==> Within(size, sector * SECTOR, nb * SECTOR)
  {}

  /** Bytes before the next sector boundary. */
  function ToBoundary(offset: int): (r: nat)
    ensures r < SECTOR && (offset + r) % SECTOR == 0
  {
    (SECTOR - offset) % SECTOR
  }

  /** The answer to the next driver operation. */
  function Next(answers: seq<Answer>): Answer {
    if answers == [] then Success else answers[0]
  }

  /** How many of n bytes reach the disk: whole sectors of them when the driver fails. */
  function Torn(a: Answer, n: nat): (r: nat)
    ensures r <= n
  {
    if a.Success? then n else Min(a.torn, n / SECTOR) * SECTOR
  }

  class BlockDevice {
    var disk: seq<Octet>
    var hasDriver: bool
    var inserted: bool
    var readOnly: bool
    var answers: seq<Answer>  // to the driver's coming operations; it succeeds once they are used up

    ghost predicate Valid()
      reads this`disk
    {
      |disk| % SECTOR == 0
    }

    /** No driver operation will fail. */
    ghost predicate Healthy()
      reads this`hasDriver, this`inserted, this`answers
    {
      hasDriver && inserted && forall k :: 0 <= k < |answers| ==> answers[k] == Success
    }

    method NextAnswer() returns (a: Answer)
      modifies this`answers
      ensures a == Next(old(answers)) && answers == if old(answers) == [] then [] else old(answers)[1..]
      ensures old(Healthy()) ==> a == Success && Healthy()
    {
      if answers == [] {
        return Success;
      }
      a := answers[0];
      answers := answers[1..];
    }

    /** bdrv_check_request, for a device that is not growable */
    method CheckRequest(sector: int, nb: nat) returns (ret: int)
      ensures ret < 0 || (ret == 0 && inserted && Within(|disk|, sector * SECTOR, nb * SECTOR))
      ensures inserted && Within(|disk|, sector * SECTOR, nb * SECTOR) ==> ret == 0
    {
      if !inserted {
        return -ENOMEDIUM;
      }
      var len, offset, size := |disk|, sector * SECTOR, nb * SECTOR;
      if offset < 0 {
        return -EIO;
      }
      if offset > len || len - offset < size {
        return -EIO;
      }
      return 0;
    }

    /** bdrv_read */
    method Read(sector: int, nb: nat) returns (ret: int, data: seq<Octet>)
      modifies this`answers
      ensures ret < 0 || (ret == 0 && |data| == nb * SECTOR && Holds(disk, sector * SECTOR, data))
      ensures !hasDriver ==> ret == -ENOMEDIUM
      ensures hasDriver ==>
                ret == if inserted && Within(|disk|, sector * SECTOR, nb * SECTOR) && Next(old(answers)).Success?
                       then 0 else -EIO
      ensures old(Healthy()) ==> Healthy() && (ret == 0 <==> Within(|disk|, sector * SECTOR, nb * SECTOR))
    {
      data := [];
      if !hasDriver {
        return -ENOMEDIUM, data;
      }
      var bad := CheckRequest(sector, nb);
      if bad != 0 {
        return -EIO, data;
      }
      var a := NextAnswer();
      if a.Failure? {
        return -EIO, data;
      }
      return 0, disk[sector * SECTOR..sector * SECTOR + nb * SECTOR];
    }

    /** bdrv_write */
    method Write(sector: int, data: seq<Octet>) returns (ret: int)
      requires |data| % SECTOR == 0
      modifies this`answers, this`disk
      ensures |disk| == |old(disk)| && PartlyWritten(old(disk), disk, sector * SECTOR, data)
      ensures ret < 0 || (ret == 0 && Written(old(disk), disk, sector * SECTOR, data))
      ensures !hasDriver ==> ret == -ENOMEDIUM
      ensures hasDriver && readOnly ==> ret == -EACCES && disk == old(disk)
      ensures hasDriver && !readOnly && !(inserted && Within(|disk|, sector * SECTOR, |data|)) ==>
                ret == -EIO && disk == old(disk)
      ensures hasDriver && !readOnly && inserted && Within(|disk|, sector * SECTOR, |data|) ==>
                var a := Next(old(answers));
                && ret == (if a.Success? then 0 else -EIO)
                && disk == Overwritten(old(disk), sector * SECTOR, data[..Torn(a, |data|)])
      ensures old(Healthy()) ==> Healthy() && (ret == 0 <==> !readOnly && Within(|disk|, sector * SECTOR, |data|))
    {
      if !hasDriver {
        return -ENOMEDIUM;
      }
      if readOnly {
        return -EACCES;
      }
      var bad := CheckRequest(sector, |data| / SECTOR);
      if bad != 0 {
        return -EIO;
      }
      var a := NextAnswer();
      if a.Failure? {
        var torn := Min(a.torn, |data| / SECTOR) * SECTOR;
        disk := Overwritten(disk, sector * SECTOR, data[..torn]);
        return -EIO;
      }
      assert data[..|data|] == data;
      disk := Overwritten(disk, sector * SECTOR, data);
      return 0;
    }

    /** Part of one sector, by way of a buffer that holds the whole sector. */
    method ReadPart(sector: int, within: nat, len: nat) returns (ret: int, data: seq<Octet>)
      requires within + len <= SECTOR
      modifies this`answers
      ensures ret < 0 || (ret == 0 && |data| == len && Holds(disk, sector * SECTOR + within, data))
      ensures old(Healthy()) ==> Healthy() && (ret == 0 <==> Within(|disk|, sector * SECTOR, SECTOR))
    {
      ret, data := Read(sector, 1);
      if ret == 0 {
        HoldsPart(disk, sector * SECTOR, data, within, len);
        data := data[within..within + len];
      }
    }

    /** Replaces part of one sector: reads the sector, changes the part and writes the sector back. */
    method WritePart(sector: int, within: nat, part: seq<Octet>) returns (ret: int)
      requires within + |part| <= SECTOR
      modifies this`answers, this`disk
      ensures |disk| == |old(disk)| && PartlyWritten(old(disk), disk, sector * SECTOR + within, part)
      ensures ret < 0 || (ret == 0 && Written(old(disk), disk, sector * SECTOR + within, part))
      ensures old(Healthy()) ==> Healthy() && (ret == 0 <==> !readOnly && Within(|disk|, sector * SECTOR, SECTOR))
    {
      var sectorData;
      ret, sectorData := Read(sector, 1);
      if ret < 0 {
        return;
      }
      ret := Write(sector, Overwritten(sectorData, within, part));
    }

    /**
      bdrv_pread: a read that does not fail returns exactly the bytes asked for, and without driver
      errors it fails exactly when some byte asked for is not on the disk.
     */
    method Pread(offset: int, count1: nat) returns (ret: int, data: seq<Octet>)
      requires Valid()
      modifies this`answers
      ensures ret < 0 || (ret == count1 == |data| && Holds(disk, offset, data))
      ensures old(Healthy()) ==> Healthy() && (ret == count1 <==> count1 == 0 || Within(|disk|, offset, count1))
    {
      hide Within, Holds, Healthy;
      var count := count1;
      data := [];
      NothingHeld(disk, offset);
      var len := Min(ToBoundary(offset), count);
      var sector := offset / SECTOR;
      if len > 0 {
        Touched(|disk|, offset, count1, sector, 1);
        ret, data := ReadPart(sector, offset % SECTOR, len);
        if ret < 0 {
          return;
        }
        count := count - len;
        if count == 0 {
          HoldsWithin(disk, offset, data);
          return count1, data;
        }
        sector := sector + 1;
      }
      var nb := count / SECTOR;
      if nb > 0 {
        Touched(|disk|, offset, count1, sector, nb);
        var middle;
        ret, middle := Read(sector, nb);
        if ret < 0 {
          return;
        }
        HoldsJoin(disk, offset, data, middle);
        data := data + middle;
        sector := sector + nb;
        count := count - nb * SECTOR;
      }
      if count > 0 {
        Touched(|disk|, offset, count1, sector, 1);
        var last;
        ret, last := ReadPart(sector, 0, count);
        if ret < 0 {
          return;
        }
        HoldsJoin(disk, offset, data, last);
        data := data + last;
      }
      HoldsWithin(disk, offset, data);
      return count1, data;
    }

    /** The part of bdrv_pwrite from a sector boundary on: whole sectors in place, then the last sector. */
    method WriteAligned(sector: int, buf: seq<Octet>) returns (ret: int)
      requires Valid()
      modifies this`answers, this`disk
      ensures |disk| == |old(disk)| && PartlyWritten(old(disk), disk, sector * SECTOR, buf)
      ensures ret < 0 || (ret == 0 && Written(old(disk), disk, sector * SECTOR, buf))
      ensures old(Healthy()) ==>
                Healthy() && (ret == 0 <==> buf == [] || (!readOnly && Within(|disk|, sector * SECTOR, |buf|)))
    {
      hide Within, Written, PartlyWritten, WrittenUpTo, Healthy;
      ghost var offset := sector * SECTOR;
      NothingWritten(disk, offset, buf);
      var nb := |buf| / SECTOR;
      var done := nb * SECTOR;
      if nb > 0 {
        Touched(|disk|, offset, |buf|, sector, nb);
        ret := Write(sector, buf[0..done]);
        NextWritten(old(disk), old(disk), disk, offset, buf, 0, done);
        if ret < 0 {
          return;
        }
      }
      if done < |buf| {
        assert (sector + nb) * SECTOR == offset + done;
        Touched(|disk|, offset, |buf|, sector + nb, 1);
        label Last:
        ret := WritePart(sector + nb, 0, buf[done..|buf|]);
        NextWritten(old(disk), old@Last(disk), disk, offset, buf, done, |buf|);
        if ret < 0 {
          return;
        }
      }
      AllWritten(old(disk), disk, offset, buf);
      return 0;
    }

    /**
      bdrv_pwrite: a write that does not fail changes exactly the bytes it was given; without driver
      errors it fails exactly when the device is read-only or some byte is not on the disk.  However
      it ends, no byte outside the range changes.
     */
    method Pwrite(offset: int, buf: seq<Octet>) returns (ret: int)
      requires Valid()
      modifies this`answers, this`disk
      ensures |disk| == |old(disk)| && PartlyWritten(old(disk), disk, offset, buf)
      ensures ret < 0 || (ret == |buf| && Written(old(disk), disk, offset, buf))
      ensures old(Healthy()) ==>
                Healthy() && (ret == |buf| <==> buf == [] || (!readOnly && Within(|disk|, offset, |buf|)))
    {
      hide Within, Written, PartlyWritten, WrittenUpTo, Healthy;
      NothingWritten(disk, offset, buf);
      var len := Min(ToBoundary(offset), |buf|);
      var sector := offset / SECTOR;
      if len > 0 {
        assert sector * SECTOR + offset % SECTOR == offset;
        Touched(|disk|, offset, |buf|, sector, 1);
        ret := WritePart(sector, offset % SECTOR, buf[0..len]);
        NextWritten(old(disk), old(disk), disk, offset, buf, 0, len);
        if ret < 0 {
          return;
        }
        sector := sector + 1;
      }
      if len == |buf| {
        AllWritten(old(disk), disk, offset, buf);
        return |buf|;
      }
      assert sector * SECTOR == offset + len;
      if Within(|disk|, offset, |buf|) {
        TailWithin(|disk|, offset, |buf|, len);
      }
      label Rest:
      ret := WriteAligned(sector, buf[len..|buf|]);
      NextWritten(old(disk), old@Rest(disk), disk, offset, buf, len, |buf|);
      if ret < 0 {
        return;
      }
      AllWritten(old(disk), disk, offset, buf);
      return |buf|;
    }
  }
}
