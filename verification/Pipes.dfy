/** Pipes: a bounded buffer between a reader half and a writer half, and a payload-free component-model
    stream on which a blocked half waits for the other.

    Every method below is one stretch of code that runs with the pipe's lock held, so any interleaving
    of threads is a sequence of these methods. */
module Pipes {

  type Byte = int

  const PIPE_BUF: nat := 4096

  datatype ReadResult = Data(bytes: seq<Byte>) | ReadWouldBlock | ReadUnsupported | ReadBlocked
  datatype WriteResult = Wrote(count: nat) | BrokenPipe | NoMemory | WriteWouldBlock | WriteUnsupported | WriteBlocked
  datatype PollResult = Ready | PollUnsupported | PollFailed | Registered

  /** What a stream operation reports at once. */
  datatype Status = Completed | Pending | Cancelled

  /** A write of `n` bytes has to wait while `len` are in the buffer: it is full, or does not hold them in one piece. */
  predicate NoRoom(n: nat, len: nat) { len >= PIPE_BUF || (n <= PIPE_BUF && PIPE_BUF - len < n) }

  /** A read of `length` bytes takes as many of the contents as there are off the front, or nothing. */
  ghost predicate Takes(contents: seq<Byte>, length: nat, r: ReadResult, contents': seq<Byte>) {
    if r.Data? then contents == r.bytes + contents' && (|r.bytes| == length || (|r.bytes| < length && contents' == []))
    else contents' == contents
  }

  /** A write appends as much of the data as there is room for, or nothing. */
  ghost predicate Puts(contents: seq<Byte>, data: seq<Byte>, r: WriteResult, contents': seq<Byte>) {
    if r.Wrote? then
      && r.count <= |data| && contents' == contents + data[..r.count]
      && (r.count == |data| || |contents'| == PIPE_BUF < |data|)
    else contents' == contents
  }

  /** There was no room for the write. */
  predicate Waits(r: WriteResult) { r.WriteWouldBlock? || r.WriteUnsupported? || r.WriteBlocked? }

  lemma Rejoin(taken: seq<Byte>, had: seq<Byte>, amt: nat)
    requires amt <= |had|
    ensures (taken + had[..amt]) + had[amt..] == taken + had
  {
    assert had == had[..amt] + had[amt..];
  }

  class Pipe {
    var readerAlive: bool
    var writerAlive: bool
    var readerBlocked: bool
    var writerBlocked: bool
    var readerWoken: bool
    var writerWoken: bool
    var buffer: array?<Byte>
    var len: nat
    var cap: nat
    /** Whether the stream was created, and whether a read or a write of it is in flight. */
    var stream: bool
    var readInFlight: bool
    var writeInFlight: bool
    /** Everything ever written to the pipe, and everything ever read from it. */
    ghost var written: seq<Byte>
    ghost var taken: seq<Byte>

    ghost function Contents(): seq<Byte>
      reads this, buffer
    {
      if buffer == null || len > buffer.Length then [] else buffer[..len]
    }

    /** The wake protocol. */
    ghost predicate Protocol()
      reads this
    {
      && (readInFlight <==> readerBlocked && !readerWoken)
      && (writeInFlight <==> writerBlocked && !writerWoken)
      && (readerWoken ==> readerBlocked) && (writerWoken ==> writerBlocked)
      && (readerBlocked || writerBlocked ==> stream)
      && (readerBlocked ==> readerAlive) && (writerBlocked ==> writerAlive)
      // a half that waits has something to wait for, and the other half will come by
      && (readInFlight ==> len == 0 && writerAlive)
      && (writeInFlight ==> len > 0 && readerAlive)
    }

    ghost predicate Valid()
      reads this, buffer
    {
      && Protocol()
      && len <= cap && (cap == 0 || cap == PIPE_BUF) && (buffer == null ==> len == 0)
      && (buffer != null ==> buffer.Length == cap == PIPE_BUF)
      && taken + Contents() == written
    }

    /** `pipe2` */
    constructor ()
      ensures Valid() && readerAlive && writerAlive && !readerBlocked && !writerBlocked && written == [] &&
        taken == [] && buffer == null
    {
      readerAlive, writerAlive := true, true;
      readerBlocked, writerBlocked, readerWoken, writerWoken := false, false, false, false;
      buffer, len, cap := null, 0, 0;
      stream, readInFlight, writeInFlight := false, false, false;
      written, taken := [], [];
    }

    // ----- the stream: a read and a write meet, or the first of them waits

    method UnitRead() returns (s: Status)
      requires stream && !readInFlight
      modifies `readInFlight, `writeInFlight
      ensures
        if old(writeInFlight) then s == Completed && !writeInFlight && !readInFlight
        else s == Pending && readInFlight && !writeInFlight
    {
      if writeInFlight {
        writeInFlight := false;
        return Completed;
      }
      readInFlight := true;
      return Pending;
    }

    method UnitWrite() returns (s: Status)
      requires stream && !writeInFlight
      modifies `readInFlight, `writeInFlight
      ensures
        if old(readInFlight) then s == Completed && !writeInFlight && !readInFlight
        else s == Pending && writeInFlight && !readInFlight
    {
      if readInFlight {
        readInFlight := false;
        return Completed;
      }
      writeInFlight := true;
      return Pending;
    }

    method CancelRead() returns (s: Status)
      requires stream
      modifies `readInFlight
      ensures !readInFlight && s == if old(readInFlight) then Cancelled else Completed
    {
      s := if readInFlight then Cancelled else Completed;
      readInFlight := false;
    }

    method CancelWrite() returns (s: Status)
      requires stream
      modifies `writeInFlight
      ensures !writeInFlight && s == if old(writeInFlight) then Cancelled else Completed
    {
      s := if writeInFlight then Cancelled else Completed;
      writeInFlight := false;
    }

    // ----- waking and blocking

    /** `pipe_unblock_writer`; every wake completes at once. */
    method UnblockWriter()
      requires (writerBlocked ==> stream) && (writerBlocked && !writerWoken ==> writeInFlight && !readInFlight)
      modifies `writerWoken, `writeInFlight, `readInFlight
      ensures writerWoken == (old(writerWoken) || writerBlocked)
      ensures writeInFlight == (old(writeInFlight) && !(writerBlocked && !old(writerWoken))) &&
        readInFlight == old(readInFlight)
    {
      if !writerBlocked { return; }
      assert stream;
      if writerWoken { return; }
      writerWoken := true;
      var status := UnitRead();
      assert status == Completed;
    }

    /** `pipe_unblock_reader` */
    method UnblockReader()
      requires (readerBlocked ==> stream) && (readerBlocked && !readerWoken ==> readInFlight && !writeInFlight)
      modifies `readerWoken, `writeInFlight, `readInFlight
      ensures readerWoken == (old(readerWoken) || readerBlocked)
      ensures readInFlight == (old(readInFlight) && !(readerBlocked && !old(readerWoken))) &&
        writeInFlight == old(writeInFlight)
    {
      if !readerBlocked { return; }
      assert stream;
      if readerWoken { return; }
      readerWoken := true;
      var status := UnitWrite();
      assert status == Completed;
    }

    /** `pipe_block_reader_enter`; entering always blocks, because no write is in flight. */
    method EnterReader() returns (ok: bool)
      requires Protocol() && len == 0 && writerAlive && readerAlive
      modifies `readerBlocked, `stream, `readInFlight, `writeInFlight
      ensures Protocol() && ok == !old(readerBlocked) && readerBlocked
    {
      if readerBlocked { return false; }
      assert !readerWoken;
      readerBlocked := true;
      stream := true;
      var status := UnitRead();
      assert status == Pending;
      return true;
    }

    /** `pipe_block_writer_enter` */
    method EnterWriter() returns (ok: bool)
      requires Protocol() && len > 0 && readerAlive && writerAlive
      modifies `writerBlocked, `stream, `readInFlight, `writeInFlight
      ensures Protocol() && ok == !old(writerBlocked) && writerBlocked
    {
      if writerBlocked { return false; }
      assert !writerWoken;
      writerBlocked := true;
      stream := true;
      var status := UnitWrite();
      assert status == Pending;
      return true;
    }

    /** `pipe_block_reader_exit`; a read that was not woken is still in flight, and is cancelled. */
    method ExitReader() returns (woken: bool)
      requires Protocol() && readerBlocked
      modifies `readerBlocked, `readerWoken, `readInFlight
      ensures Protocol() && woken == old(readerWoken) && !readerBlocked
    {
      woken := readerWoken;
      readerWoken := false;
      readerBlocked := false;
      if !woken {
        var status := CancelRead();
        assert status == Cancelled;
      }
    }

    /** `pipe_block_writer_exit` */
    method ExitWriter() returns (woken: bool)
      requires Protocol() && writerBlocked
      modifies `writerBlocked, `writerWoken, `writeInFlight
      ensures Protocol() && woken == old(writerWoken) && !writerBlocked
    {
      woken := writerWoken;
      writerWoken := false;
      writerBlocked := false;
      if !woken {
        var status := CancelWrite();
        assert status == Cancelled;
      }
    }

    // ----- pipe_recvfrom

    /** Moves the first `amt` bytes out of the buffer. */
    method TakeOut(amt: nat) returns (out: seq<Byte>)
      requires Valid() && amt <= len && buffer != null
      modifies `len, `taken, buffer
      ensures out == old(Contents())[..amt] && Contents() == old(Contents())[amt..] && len == old(len) - amt
      ensures taken == old(taken) + out && taken + Contents() == written
    {
      ghost var had := Contents();
      out := buffer[..amt];
      MoveDown(amt);
      len := len - amt;
      taken := taken + out;
      assert Contents() == had[amt..];
      Rejoin(old(taken), had, amt);
    }

    /** Moves what follows the first `amt` bytes to the start of the buffer. */
    method MoveDown(amt: nat)
      requires buffer != null && amt <= len <= buffer.Length
      modifies buffer
      ensures buffer[..len - amt] == old(buffer[..len])[amt..]
    {
      forall i | 0 <= i < len - amt {
        buffer[i] := buffer[i + amt];
      }
    }

    /** One pass of the read loop. */
    method ReadPass(length: nat, blocking: bool) returns (r: ReadResult)
      requires Valid() && length > 0 && readerAlive
      modifies this, buffer
      ensures Valid() && written == old(written) && readerAlive && writerAlive == old(writerAlive) &&
        writerBlocked == old(writerBlocked)
      ensures buffer == old(buffer) && cap == old(cap)
      ensures Takes(old(Contents()), length, r, Contents()) && (r.Data? <==> old(len) > 0 || !writerAlive)
      ensures taken == old(taken) + (if r.Data? then r.bytes else [])
      ensures !r.Data? ==> (r.ReadWouldBlock? <==> !blocking)
      ensures readerBlocked == (old(readerBlocked) || r.ReadBlocked?) && (r.ReadBlocked? ==> !old(readerBlocked))
      ensures r.ReadUnsupported? ==> old(readerBlocked)
      ensures len <= old(len) && ((len < old(len) && writerBlocked) || old(writerWoken) ==> writerWoken)
    {
      if len > 0 {
        var amt := if length < len then length else len;
        var out := TakeOut(amt);
        UnblockWriter();
        return Data(out);
      }
      if !writerAlive { return Data([]); }
      if !blocking { return ReadWouldBlock; }
      var ok := EnterReader();
      if !ok { return ReadUnsupported; }
      return ReadBlocked;
    }

    /** `pipe_recvfrom` up to its return or its first block. */
    method BeginRead(length: nat, blocking: bool) returns (r: ReadResult)
      requires Valid() && readerAlive
      modifies this, buffer
      ensures Valid() && written == old(written) && readerAlive && writerAlive == old(writerAlive) &&
        writerBlocked == old(writerBlocked)
      ensures buffer == old(buffer) && cap == old(cap)
      ensures Takes(old(Contents()), length, r, Contents())
      ensures r.Data? <==> length == 0 || old(len) > 0 || !writerAlive
      ensures taken == old(taken) + (if r.Data? then r.bytes else [])
      ensures !r.Data? ==> (r.ReadWouldBlock? <==> !blocking) && (r.ReadUnsupported? ==> old(readerBlocked))
      ensures readerBlocked == (old(readerBlocked) || r.ReadBlocked?) &&
        (r.ReadBlocked? ==> !old(readerBlocked) && length > 0)
      ensures len <= old(len) && ((len < old(len) && writerBlocked) || old(writerWoken) ==> writerWoken)
    {
      if length == 0 { return Data([]); }
      r := ReadPass(length, blocking);
    }

    /** `pipe_recvfrom` from the wake-up of its thread to its return or its next block. */
    method ResumeRead(length: nat, blocking: bool) returns (r: ReadResult)
      requires Valid() && length > 0 && readerBlocked && readerWoken
      modifies this, buffer
      ensures Valid() && written == old(written) && readerAlive && writerAlive == old(writerAlive) &&
        writerBlocked == old(writerBlocked)
      ensures buffer == old(buffer) && cap == old(cap)
      ensures Takes(old(Contents()), length, r, Contents()) && (r.Data? <==> old(len) > 0 || !writerAlive)
      ensures taken == old(taken) + (if r.Data? then r.bytes else [])
      ensures !r.Data? ==> (r.ReadWouldBlock? <==> !blocking)
      ensures readerBlocked == r.ReadBlocked? && !r.ReadUnsupported?
      ensures len <= old(len) && ((len < old(len) && writerBlocked) || old(writerWoken) ==> writerWoken)
    {
      var woken := ExitReader();
      r := ReadPass(length, blocking);
    }

    // ----- pipe_sendto

    /** Appends the first `amt` bytes of `data` to the buffer. */
    method PutIn(data: seq<Byte>, amt: nat)
      requires Valid() && amt <= |data| && buffer != null && len + amt <= cap
      modifies `len, `written, buffer
      ensures Contents() == old(Contents()) + data[..amt] && len == old(len) + amt
      ensures written == old(written) + data[..amt] && taken + Contents() == written
    {
      ghost var had := Contents();
      forall i | 0 <= i < amt {
        buffer[len + i] := data[i];
      }
      len := len + amt;
      written := written + data[..amt];
      assert Contents() == had + data[..amt];
      assert taken + (had + data[..amt]) == (taken + had) + data[..amt];
    }

    /** One pass of the write loop. */
    method WritePass(data: seq<Byte>, blocking: bool) returns (r: WriteResult)
      requires Valid() && data != [] && writerAlive && buffer != null
      modifies this, buffer
      ensures Valid() && taken == old(taken) && writerAlive && readerAlive == old(readerAlive) &&
        readerBlocked == old(readerBlocked)
      ensures buffer == old(buffer) && cap == old(cap)
      ensures Puts(old(Contents()), data, r, Contents()) && !r.NoMemory?
      ensures written == old(written) + (if r.Wrote? then data[..r.count] else [])
      ensures (r.BrokenPipe? <==> !readerAlive) && (r.Wrote? <==> readerAlive && !NoRoom(|data|, old(len)))
      ensures Waits(r) ==> (r.WriteWouldBlock? <==> !blocking)
      ensures old(len) <= len && writerWoken == old(writerWoken)
      ensures writerBlocked == (old(writerBlocked) || r.WriteBlocked?) && (r.WriteBlocked? ==> !old(writerBlocked))
      ensures r.WriteUnsupported? ==> old(writerBlocked)
    {
      assert written + [] == written;
      if !readerAlive { return BrokenPipe; }
      var remaining := cap - len;
      var atomic := |data| <= PIPE_BUF;
      if remaining > 0 && (!atomic || |data| <= remaining) {
        var amt := if |data| < remaining then |data| else remaining;
        PutIn(data, amt);
        UnblockReader();
        return Wrote(amt);
      }
      if !blocking { return WriteWouldBlock; }
      var ok := EnterWriter();
      if !ok { return WriteUnsupported; }
      return WriteBlocked;
    }

    /** `pipe_sendto` up to its return or its first block; `mallocOk` says whether `malloc` succeeds. */
    method BeginWrite(data: seq<Byte>, blocking: bool, mallocOk: bool) returns (r: WriteResult)
      requires Valid() && writerAlive
      modifies this, buffer
      ensures Valid() && taken == old(taken) && writerAlive && readerAlive == old(readerAlive) &&
        readerBlocked == old(readerBlocked)
      ensures buffer == old(buffer) || fresh(buffer)
      ensures Puts(old(Contents()), data, r, Contents())
      ensures written == old(written) + (if r.Wrote? then data[..r.count] else [])
      ensures r.NoMemory? <==> data != [] && old(buffer) == null && !mallocOk
      ensures r.BrokenPipe? <==> data != [] && !r.NoMemory? && !readerAlive
      ensures r.Wrote? <==> data == [] || (!r.NoMemory? && readerAlive && !NoRoom(|data|, old(len)))
      ensures Waits(r) ==> (r.WriteWouldBlock? <==> !blocking) && (r.WriteUnsupported? ==> old(writerBlocked))
      ensures writerBlocked == (old(writerBlocked) || r.WriteBlocked?) &&
        (r.WriteBlocked? ==> !old(writerBlocked) && data != [] && buffer != null)
      ensures old(len) <= len && writerWoken == old(writerWoken) && (r.WriteBlocked? ==> NoRoom(|data|, len))
    {
      if data == [] { return Wrote(0); }
      if buffer == null {
        cap := PIPE_BUF;
        if !mallocOk { return NoMemory; }
        buffer := new Byte[PIPE_BUF];
        assert Contents() == [] && taken + [] == taken;
      }
      r := WritePass(data, blocking);
    }

    /** `pipe_sendto` from the wake-up of its thread to its return or its next block. */
    method ResumeWrite(data: seq<Byte>, blocking: bool) returns (r: WriteResult)
      requires Valid() && data != [] && writerBlocked && writerWoken && buffer != null
      modifies this, buffer
      ensures Valid() && taken == old(taken) && writerAlive && readerAlive == old(readerAlive) &&
        readerBlocked == old(readerBlocked)
      ensures buffer == old(buffer) && cap == old(cap)
      ensures Puts(old(Contents()), data, r, Contents()) && !r.NoMemory?
      ensures written == old(written) + (if r.Wrote? then data[..r.count] else [])
      ensures (r.BrokenPipe? <==> !readerAlive) && (r.Wrote? <==> readerAlive && !NoRoom(|data|, old(len)))
      ensures Waits(r) ==> (r.WriteWouldBlock? <==> !blocking)
      ensures writerBlocked == r.WriteBlocked? && !r.WriteUnsupported?
      ensures old(len) <= len && !writerWoken && (r.WriteBlocked? ==> NoRoom(|data|, len))
    {
      var woken := ExitWriter();
      r := WritePass(data, blocking);
    }

    // ----- pipe_free

    /** `pipe_free` of the reader half, which no thread uses any more; tells whether the pipe itself goes. */
    method FreeReader() returns (gone: bool)
      requires Valid() && readerAlive && !readerBlocked
      modifies `readerAlive, `writerWoken, `writeInFlight, `readInFlight
      ensures Valid() && !readerAlive && gone == !writerAlive && (writerBlocked ==> writerWoken)
    {
      readerAlive := false;
      if !writerAlive { return true; }
      UnblockWriter();
      return false;
    }

    /** `pipe_free` of the writer half */
    method FreeWriter() returns (gone: bool)
      requires Valid() && writerAlive && !writerBlocked
      modifies `writerAlive, `readerWoken, `writeInFlight, `readInFlight
      ensures Valid() && !writerAlive && gone == !readerAlive && (readerBlocked ==> readerWoken)
    {
      writerAlive := false;
      if !readerAlive { return true; }
      UnblockReader();
      return false;
    }

    // ----- pipe_poll_register and its callbacks

    /** Waiting for the reader half to be ready; `added` says whether the poll could take one more event. */
    method PollRead(added: bool) returns (r: PollResult)
      requires Valid() && readerAlive
      modifies `readerBlocked, `readerWoken, `stream, `readInFlight, `writeInFlight
      ensures Valid() && readerBlocked == (old(readerBlocked) || r.Registered?) &&
        (r.Registered? ==> !old(readerBlocked))
      ensures r.Ready? <==> len > 0 || !writerAlive
      ensures !r.Ready? ==>
        && (r.PollUnsupported? <==> old(readerBlocked))
        && (r.PollFailed? <==> !old(readerBlocked) && !added)
    {
      if len > 0 || !writerAlive { return Ready; }
      var ok := EnterReader();
      if !ok { return PollUnsupported; }
      if !added {
        var woken := ExitReader();
        return PollFailed;
      }
      return Registered;
    }

    method PollWrite(added: bool) returns (r: PollResult)
      requires Valid() && writerAlive
      modifies `writerBlocked, `writerWoken, `stream, `readInFlight, `writeInFlight
      ensures Valid() && writerBlocked == (old(writerBlocked) || r.Registered?) &&
        (r.Registered? ==> !old(writerBlocked))
      ensures r.Ready? <==> len < PIPE_BUF || !readerAlive
      ensures !r.Ready? ==>
        && (r.PollUnsupported? <==> old(writerBlocked))
        && (r.PollFailed? <==> !old(writerBlocked) && !added)
      ensures old(writerWoken) ==> writerWoken
    {
      if cap == 0 || len < cap || !readerAlive { return Ready; }
      var ok := EnterWriter();
      if !ok { return PollUnsupported; }
      if !added {
        var woken := ExitWriter();
        return PollFailed;
      }
      return Registered;
    }

    /** `pipe_read_ready`: the poll ends, because of an event on this pipe or for another reason. */
    method ReadReady(event: bool)
      requires Valid() && readerBlocked && (event ==> readerWoken)
      modifies `readerBlocked, `readerWoken, `readInFlight
      ensures Valid() && !readerBlocked
    {
      var woken := ExitReader();
      if event { assert woken; }
    }

    method WriteReady(event: bool)
      requires Valid() && writerBlocked && (event ==> writerWoken)
      modifies `writerBlocked, `writerWoken, `writeInFlight
      ensures Valid() && !writerBlocked
    {
      var woken := ExitWriter();
      if event { assert woken; }
    }
  }
}
