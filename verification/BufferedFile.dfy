/**
  buffered_file.c: an output file that buffers what its backend does not take at once.
 */
module BufferedFile {
  import opened Base

  const EAGAIN: int := 11
  const EINVAL: int := 22

  function Taken(ret: int): nat { if ret > 0 then ret else 0 }

  /** Of the answers used since `from`, the last was -EAGAIN, or an error. */
  ghost predicate LastAnswer(answers: seq<int>, from: nat, used: nat, busy: bool) {
    && from < used <= |answers|
    && if busy then answers[used - 1] == -EAGAIN else answers[used - 1] <= 0 && answers[used - 1] != -EAGAIN
  }

  /** Some answer used since `from` was an error. */
  ghost predicate Failed(answers: seq<int>, from: nat, used: nat) {
    exists k :: from <= k < used && k < |answers| && answers[k] <= 0 && answers[k] != -EAGAIN
  }

  /**
    The backend's put_buffer.  `answers` are the results it will give, cut to the number of bytes
    offered; once they are used up it takes everything.
   */
  class Backend {
    const answers: seq<int>
    var used: nat
    var delivered: seq<Octet>

    constructor (answers: seq<int>)
      ensures this.answers == answers && used == 0 && delivered == []
    {
      this.answers, used, delivered := answers, 0, [];
    }

    /** How many answers are left. */
    ghost function Left(): nat
      reads this`used
    {
      if used < |answers| then |answers| - used else 0
    }

    method Put(data: seq<Octet>) returns (ret: int)
      requires data != []
      modifies this
      ensures ret <= |data| && delivered == old(delivered) + data[..Taken(ret)]
      ensures old(used) >= |answers| ==> used == old(used) && ret == |data|
      ensures old(used) < |answers| ==> used == old(used) + 1
      ensures old(used) < |answers| ==> ret == if answers[old(used)] > |data| then |data| else answers[old(used)]
    {
      if used >= |answers| {
        ret := |data|;
      } else {
        ret := if answers[used] > |data| then |data| else answers[used];
        used := used + 1;
      }
      delivered := delivered + data[..Taken(ret)];
    }
  }

  /** Data of which a front part went past an empty buffer and the rest into it continue what was there. */
  lemma Accounted(taken: seq<Octet>, kept: seq<Octet>, put: seq<Octet>, data: seq<Octet>, offset: nat)
    requires taken + kept == put && offset <= |data| && (kept == [] || offset == 0)
    ensures taken + data[..offset] + (kept + data[offset..]) == put + data
  {}

  class QemuFileBuffered {
    const backend: Backend
    var hasError: bool
    var freezeOutput: bool
    var bytesXfer: nat
    var xferLimit: nat
    var buffer: array<Octet>   // its length is buffer_capacity
    var bufferSize: nat
    ghost var put: seq<Octet>  // all the bytes accepted from the writer

    constructor (backend: Backend, bytesPerSec: nat)
      requires backend.delivered == []
      ensures this.backend == backend && fresh(buffer) && Valid() && Contents() == [] && put == []
      ensures !hasError && !freezeOutput && bytesXfer == 0 && xferLimit == bytesPerSec / 10
    {
      this.backend := backend;
      hasError, freezeOutput, bytesXfer, xferLimit := false, false, 0, bytesPerSec / 10;
      buffer := new Octet[0];
      bufferSize, put := 0, [];
    }

    ghost function Contents(): seq<Octet>
      reads this, buffer
      requires bufferSize <= buffer.Length
    {
      buffer[..bufferSize]
    }

    /** Without an error, nothing is lost, duplicated or reordered. */
    ghost predicate Valid()
      reads this, buffer, backend
    {
      && bufferSize <= buffer.Length
      && (!hasError ==> backend.delivered + Contents() == put)
    }

    /** buffered_append */
    method Append(data: seq<Octet>)
      requires bufferSize <= buffer.Length
      modifies this`buffer, this`bufferSize, buffer
      ensures bufferSize <= buffer.Length && Contents() == old(Contents()) + data
      ensures buffer == old(buffer) || fresh(buffer)
      ensures if |data| <= old(buffer.Length - bufferSize) then buffer == old(buffer)
              else buffer.Length == old(buffer.Length) + |data| + 1024
    {
      if |data| > buffer.Length - bufferSize {
        var tmp := new Octet[buffer.Length + |data| + 1024](_ => 0);
        forall k | 0 <= k < bufferSize {
          tmp[k] := buffer[k];
        }
        buffer := tmp;
      }
      forall k | 0 <= k < |data| {
        buffer[bufferSize + k] := data[k];
      }
      bufferSize := bufferSize + |data|;
    }

    /** memmove of what is left to the front of the buffer. */
    method DropFront(offset: nat)
      requires offset <= bufferSize <= buffer.Length
      modifies this`bufferSize, buffer
      ensures bufferSize <= buffer.Length && Contents() == old(Contents())[offset..]
    {
      forall k | 0 <= k < bufferSize - offset {
        buffer[k] := buffer[offset + k];
      }
      bufferSize := bufferSize - offset;
    }

    /** buffered_flush */
    method Flush()
      requires bufferSize <= buffer.Length
      modifies this`hasError, this`freezeOutput, this`bufferSize, buffer, backend
      ensures bufferSize <= buffer.Length
      ensures backend.delivered + Contents() == old(backend.delivered + Contents())
      ensures old(hasError) ==> hasError && backend.used == old(backend.used) && freezeOutput == old(freezeOutput)
      ensures !hasError && !freezeOutput ==> Contents() == []
      ensures !hasError && Contents() != [] ==> LastAnswer(backend.answers, old(backend.used), backend.used, true)
      ensures old(backend.used) <= backend.used
      ensures old(freezeOutput) ==> freezeOutput
      ensures freezeOutput && !old(freezeOutput) ==> LastAnswer(backend.answers, old(backend.used), backend.used, true)
      ensures hasError && !old(hasError) ==> LastAnswer(backend.answers, old(backend.used), backend.used, false)
    {
      var offset := 0;
      if hasError {
        return;
      }
      ghost var all, was := Contents(), backend.delivered;
      while offset < bufferSize
        invariant 0 <= offset <= bufferSize == |all| && unchanged(buffer) && unchanged(this`bufferSize)
        invariant backend.delivered == was + all[..offset]
        invariant !hasError && freezeOutput == old(freezeOutput)
        invariant old(backend.used) <= backend.used
        decreases backend.Left(), bufferSize - offset
      {
        assert buffer[offset..bufferSize] == all[offset..];
        var ret := backend.Put(buffer[offset..bufferSize]);
        if ret == -EAGAIN {
          freezeOutput := true;
          break;
        }
        if ret <= 0 {
          hasError := true;
          break;
        }
        assert all[..offset] + all[offset..][..ret] == all[..offset + ret];
        assert was + all[..offset] + all[offset..][..ret] == was + all[..offset + ret];
        offset := offset + ret;
      }
      DropFront(offset);
      assert all == all[..offset] + all[offset..];
    }

    /**
      The loop of buffered_put_buffer that offers data to the backend directly: how much it took,
      and whether it failed.
     */
    method PutDirectly(data: seq<Octet>) returns (offset: nat, failed: bool)
      requires !freezeOutput
      modifies this`hasError, this`freezeOutput, this`bytesXfer, backend
      ensures offset <= |data| && backend.delivered == old(backend.delivered) + data[..offset]
      ensures hasError == (old(hasError) || failed) && bytesXfer == old(bytesXfer) + offset
      ensures offset < |data| ==> failed || freezeOutput || bytesXfer > xferLimit
      ensures old(bytesXfer) > xferLimit ==> offset == 0 && backend.used == old(backend.used)
      ensures old(backend.used) >= |backend.answers| && old(bytesXfer) <= xferLimit ==> offset == |data|
      ensures old(backend.used) <= backend.used
      ensures freezeOutput ==> LastAnswer(backend.answers, old(backend.used), backend.used, true)
      ensures failed ==> offset < |data| && LastAnswer(backend.answers, old(backend.used), backend.used, false)
    {
      offset, failed := 0, false;
      while !freezeOutput && offset < |data|
        invariant offset <= |data| && backend.delivered == old(backend.delivered) + data[..offset]
        invariant hasError == old(hasError) && !failed && !freezeOutput && bytesXfer == old(bytesXfer) + offset
        invariant old(bytesXfer) > xferLimit ==> offset == 0 && backend.used == old(backend.used)
        invariant old(backend.used) >= |backend.answers| ==> offset == 0 || offset == |data|
        invariant old(backend.used) <= backend.used
        decreases backend.Left(), |data| - offset, !freezeOutput
      {
        if bytesXfer > xferLimit {
          break;
        }
        var ret := backend.Put(data[offset..]);
        if ret == -EAGAIN {
          freezeOutput := true;
          break;
        }
        if ret <= 0 {
          hasError, failed := true, true;
          break;
        }
        assert data[..offset] + data[offset..][..ret] == data[..offset + ret];
        assert old(backend.delivered) + data[..offset] + data[offset..][..ret] ==
               old(backend.delivered) + data[..offset + ret];
        offset := offset + ret;
        bytesXfer := bytesXfer + ret;
      }
    }

    /**
      buffered_put_buffer: the number of bytes accepted, or -EINVAL.  Something stays in the buffer
      only when the backend has frozen the output or the rate limit is reached.
     */
    method PutBuffer(data: seq<Octet>) returns (ret: int)
      requires Valid()
      modifies this, buffer, backend
      ensures Valid() && (buffer == old(buffer) || fresh(buffer))
      ensures put == old(put) + (if old(hasError) then [] else data)
      ensures old(hasError) ==> hasError && ret == -EINVAL
      ensures ret == |data| || (ret == -EINVAL && hasError)
      ensures !old(hasError) ==>
                (ret == |data| <==> |backend.delivered| + bufferSize == old(|backend.delivered| + bufferSize) + |data|)
      ensures !hasError && !freezeOutput && bytesXfer <= xferLimit ==> Contents() == []
      ensures !old(hasError) && old(backend.used) >= |backend.answers| && old(bytesXfer) <= xferLimit ==>
                !hasError && Contents() == [] && backend.delivered == put
      ensures xferLimit == old(xferLimit) && old(backend.used) <= backend.used
      ensures freezeOutput && !old(hasError) ==> LastAnswer(backend.answers, old(backend.used), backend.used, true)
      ensures hasError && !old(hasError) ==> Failed(backend.answers, old(backend.used), backend.used)
    {
      if hasError {
        return -EINVAL;
      }
      put := put + data;
      freezeOutput := false;
      Flush();
      ghost var was := backend.delivered;
      var offset, failed := 0, false;
      if !freezeOutput {
        offset, failed := PutDirectly(data);
      }
      if failed {
        return -EINVAL;
      }
      if !hasError {
        Accounted(was, Contents(), old(put), data, offset);
      }
      Append(data[offset..]);
      return |data|;
    }

    /** buffered_close, up to the closing of the backend. */
    method Close()
      requires Valid()
      modifies this`hasError, this`freezeOutput, this`bufferSize, buffer, backend
      ensures Valid()
      ensures old(hasError) ==> hasError
      ensures !hasError ==> Contents() == [] && backend.delivered == put
      ensures old(hasError) ==> freezeOutput == old(freezeOutput)
      ensures old(backend.used) <= backend.used
      ensures hasError && !old(hasError) ==> Failed(backend.answers, old(backend.used), backend.used)
    {
      while !hasError && bufferSize != 0
        invariant Valid() && (old(hasError) ==> hasError) && old(backend.used) <= backend.used
        invariant old(hasError) ==> freezeOutput == old(freezeOutput)
        invariant hasError && !old(hasError) ==> Failed(backend.answers, old(backend.used), backend.used)
        decreases backend.Left(), bufferSize
      {
        Flush();
      }
    }

    /** buffered_rate_tick, up to the notification of the writer. */
    method RateTick()
      requires Valid()
      modifies this`hasError, this`freezeOutput, this`bytesXfer, this`bufferSize, buffer, backend
      ensures Valid() && (old(hasError) ==> hasError)
      ensures !hasError && !freezeOutput ==> Contents() == []
      ensures !old(hasError) && !old(freezeOutput) ==> bytesXfer == 0
      ensures !old(hasError) && old(freezeOutput) ==>
                freezeOutput && !hasError && bytesXfer == old(bytesXfer) && backend.used == old(backend.used)
      ensures old(backend.used) <= backend.used
      ensures freezeOutput && !old(freezeOutput) ==> LastAnswer(backend.answers, old(backend.used), backend.used, true)
      ensures hasError && !old(hasError) ==> Failed(backend.answers, old(backend.used), backend.used)
    {
      if hasError {
        Close();
        return;
      }
      if freezeOutput {
        return;
      }
      bytesXfer := 0;
      Flush();
    }
  }

  // ---- Runs ------------------------------------------------------------------------------------------------

  datatype Event = Put(data: seq<Octet>) | Tick

  /** All the bytes put. */
  function AllPut(events: seq<Event>): seq<Octet> {
    if events == [] then []
    else AllPut(events[..|events| - 1]) + (if events[|events| - 1].Put? then events[|events| - 1].data else [])
  }

  predicate LastTick(events: seq<Event>) {
    events != [] && events[|events| - 1].Tick?
  }

  /**
    Any sequence of writes and timer ticks against any backend: as long as there is no error, what
    the backend has taken followed by what is buffered is what was put; after a tick that does not
    freeze the output, and after an error-free close, the backend has it all.
   */
  method Run(file: QemuFileBuffered, events: seq<Event>, close: bool)
    requires file.Valid() && file.put == [] && !file.hasError
    modifies file, file.buffer, file.backend
    ensures file.bufferSize <= file.buffer.Length
    ensures !file.hasError ==> file.backend.delivered + file.Contents() == AllPut(events)
    ensures !file.hasError && close ==> file.backend.delivered == AllPut(events)
    ensures !file.hasError && !file.freezeOutput && LastTick(events) ==> file.Contents() == []
    ensures file.hasError ==> Failed(file.backend.answers, 0, |file.backend.answers|)
  {
    var k := 0;
    while k < |events|
      invariant k <= |events| && file.Valid() && (file.buffer == old(file.buffer) || fresh(file.buffer))
      invariant !file.hasError ==> file.put == AllPut(events[..k])
      invariant file.hasError ==> Failed(file.backend.answers, 0, |file.backend.answers|)
      invariant !file.hasError && !file.freezeOutput && LastTick(events[..k]) ==> file.Contents() == []
    {
      assert events[..k + 1][..k] == events[..k];
      match events[k] {
        case Put(data) =>
          var ret := file.PutBuffer(data);
        case Tick =>
          file.RateTick();
      }
      k := k + 1;
    }
    assert events[..k] == events;
    if close {
      file.Close();
    }
  }
}
