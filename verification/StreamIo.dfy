/** Blocking and nonblocking POSIX I/O on component-model byte streams.

    The stream is the other party: it decides freely whether an operation blocks, how much of it is
    transferred, and when the peer goes away.  A call that has to wait does so with the state marked
    as blocked, which keeps every other call out, so calls can be taken one after the other. */
module StreamIo {

  type Byte = int

  /** How an operation ended, and the bytes that were transferred. */
  datatype Ending = Completed | Dropped | Cancelled
  datatype Code = Code(ending: Ending, bytes: seq<Byte>)
  datatype Status = Blocked | Now(code: Code)

  /** The operation that is in flight on the stream. */
  datatype Pending = None | WriteOf(data: seq<Byte>) | ReadInto(room: nat)

  datatype Result = Amount(bytes: seq<Byte>) | WouldBlock | TimedOut | NoMemory | Busy | Waiting
  datatype Resolution = Resolved | Unresolved | ResolveTimedOut
  datatype PollStatus = PollReady | PollInProgress | PollError | PollBusy

  /** Bytes that were transferred are no longer to be transferred. */
  lemma Conserve(moved: seq<Byte>, bytes: seq<Byte>, rest: seq<Byte>)
    requires bytes <= rest
    ensures (moved + bytes) + rest[|bytes|..] == moved + rest
  {
    assert rest == bytes + rest[|bytes|..];
  }

  class IoState {
    /** Whether this is the writable end of a stream, and whether it is still open. */
    const writable: bool
    var open: bool
    var inProgress: bool
    var zeroInProgress: bool
    var shouldBeReady: bool
    var mustBuffer: bool
    var done: bool
    var blocked: bool
    var buf: array?<Byte>
    var bufStart: nat
    var bufEnd: nat
    /** The stream's side: the operation in flight, and all bytes that ever went through it. */
    var pending: Pending
    ghost var moved: seq<Byte>
    /** Has an operation reported that the peer is gone? */
    var dropped: bool
    /** Does the stream transfer nothing at present?  Empty operations may end all the same. */
    var stuck: bool
    /** All bytes that calls ever reported as written, or handed out as read. */
    ghost var reported: seq<Byte>

    ghost function Buffered(): seq<Byte>
      reads this, buf
    {
      if buf == null || !(bufStart <= bufEnd <= buf.Length) then [] else buf[bufStart..bufEnd]
    }

    ghost predicate Flags()
      reads this
    {
      && (zeroInProgress ==> inProgress && !shouldBeReady)
      && (mustBuffer ==> !zeroInProgress && !shouldBeReady)
      && (open ==> done == dropped)
      && (done ==> !inProgress)
      && (blocked ==> inProgress)
      && (!open ==> !inProgress && !shouldBeReady && !mustBuffer && !done && !blocked)
      && (inProgress <==> !pending.None?)
      && (pending.WriteOf? ==> writable) && (pending.ReadInto? ==> !writable)
    }

    /** What libc has taken responsibility for is either through the stream or still in the buffer. */
    ghost predicate WriterOk()
      reads this, buf
    {
      && (buf != null <==> inProgress && !zeroInProgress) && (buf != null ==> mustBuffer)
      && (if buf != null then bufStart < bufEnd <= buf.Length && pending == WriteOf(Buffered())
          else bufStart == 0 && bufEnd == 0)
      && (zeroInProgress ==> pending == WriteOf([]))
      && (if dropped then moved <= reported else moved + Buffered() == reported)
    }

    /** What came through the stream was handed out or is still in the buffer. */
    ghost predicate ReaderOk()
      reads this, buf
    {
      && (buf != null ==> bufStart <= bufEnd <= buf.Length && !zeroInProgress)
      && (buf == null ==> bufStart == 0 && bufEnd == 0)
      && (inProgress && !zeroInProgress ==>
        && buf != null && bufStart == 0 && bufEnd == 0
        && pending == ReadInto(buf.Length) && buf.Length > 0)
      && (zeroInProgress ==> pending == ReadInto(0))
      && (buf != null && !inProgress && bufStart == bufEnd ==> dropped)
      && reported + Buffered() == moved
    }

    ghost predicate Valid()
      reads this, buf
    {
      Flags() && if writable then WriterOk() else ReaderOk()
    }

    constructor (writable: bool)
      ensures Valid() && open && !blocked && this.writable == writable && moved == [] && reported == [] &&
        buf == null && !dropped && !inProgress && !shouldBeReady && !mustBuffer
    {
      this.writable, open := writable, true;
      inProgress, zeroInProgress, shouldBeReady, mustBuffer, done, blocked := false, false, false, false, false, false;
      buf, bufStart, bufEnd := null, 0, 0;
      pending, moved, dropped, reported := None, [], false, [];
      stuck := *;
    }

    // ----- the stream

    /** Starts a write.  One that does not block transfers at least one byte of a nonempty buffer,
        unless the peer is gone. */
    method StreamWrite(data: seq<Byte>) returns (s: Status)
      requires pending.None? && !dropped
      modifies `pending, `moved, `dropped
      ensures s.Blocked? ==> pending == WriteOf(data) && moved == old(moved)
      ensures dropped == (s.Now? && s.code.ending.Dropped?) && (stuck && data != [] ==> s.Blocked?)
      ensures s.Now? ==>
        && pending.None? && !s.code.ending.Cancelled? && s.code.bytes <= data
        && moved == old(moved) + s.code.bytes
      ensures s.Now? && s.code.ending.Completed? && data != [] ==> s.code.bytes != []
    {
      var blocks := *;
      if blocks || (stuck && data != []) {
        pending := WriteOf(data);
        return Blocked;
      }
      var code := Transfer(data);
      return Now(code);
    }

    method Transfer(data: seq<Byte>) returns (code: Code)
      requires !dropped
      modifies `moved, `dropped
      ensures dropped == code.ending.Dropped?
      ensures !code.ending.Cancelled? && code.bytes <= data && moved == old(moved) + code.bytes
      ensures code.ending.Completed? && data != [] ==> code.bytes != []
    {
      var n: nat :| n <= |data|;
      moved := moved + data[..n];
      if * { dropped := true; }
      if n == 0 && data != [] { dropped := true; }
      return Code(if dropped then Dropped else Completed, data[..n]);
    }

    method StreamRead(room: nat) returns (s: Status)
      requires pending.None? && !dropped
      modifies `pending, `moved, `dropped
      ensures s.Blocked? ==> pending == ReadInto(room) && moved == old(moved)
      ensures dropped == (s.Now? && s.code.ending.Dropped?) && (stuck && room > 0 ==> s.Blocked?)
      ensures s.Now? ==>
        && pending.None? && !s.code.ending.Cancelled? && |s.code.bytes| <= room
        && moved == old(moved) + s.code.bytes
      ensures s.Now? && s.code.ending.Completed? && room > 0 ==> s.code.bytes != []
    {
      var blocks := *;
      if blocks || (stuck && room > 0) {
        pending := ReadInto(room);
        return Blocked;
      }
      var code := Deliver(room);
      return Now(code);
    }

    method Deliver(room: nat) returns (code: Code)
      requires !dropped
      modifies `moved, `dropped
      ensures dropped == code.ending.Dropped?
      ensures !code.ending.Cancelled? && |code.bytes| <= room && moved == old(moved) + code.bytes
      ensures code.ending.Completed? && room > 0 ==> code.bytes != []
    {
      var bytes: seq<Byte> :| |bytes| <= room;
      moved := moved + bytes;
      if * { dropped := true; }
      if bytes == [] && room > 0 { dropped := true; }
      return Code(if dropped then Dropped else Completed, bytes);
    }

    /** The operation in flight ends. */
    method Finish() returns (code: Code)
      requires !pending.None? && !dropped
      modifies `pending, `moved, `dropped
      ensures dropped == code.ending.Dropped?
      ensures pending.None? && !code.ending.Cancelled? && Fits(old(pending), code) && moved == old(moved) + code.bytes
      ensures code.ending.Completed? && old(pending) != WriteOf([]) && old(pending) != ReadInto(0) ==> code.bytes != []
    {
      if pending.WriteOf? { code := Transfer(pending.data); } else { code := Deliver(pending.room); }
      pending := None;
    }

    static ghost predicate Fits(p: Pending, code: Code) {
      (p.WriteOf? ==> code.bytes <= p.data) && (p.ReadInto? ==> |code.bytes| <= p.room)
    }

    /** Asks whether the operation in flight has ended. */
    method PollEvent() returns (ended: bool, code: Code)
      requires !pending.None? && !dropped
      modifies `pending, `moved, `dropped
      ensures dropped == (ended && code.ending.Dropped?)
      ensures !ended ==> pending == old(pending) && moved == old(moved)
      ensures ended ==>
        && pending.None? && !code.ending.Cancelled? && Fits(old(pending), code)
        && moved == old(moved) + code.bytes
      ensures ended && code.ending.Completed? && old(pending) != WriteOf([]) && old(pending) != ReadInto(0) ==>
        code.bytes != []
    {
      if * { return false, Code(Completed, []); }
      code := Finish();
      ended := true;
    }

    /** Waits for the operation in flight to end; without a timeout that is what happens. */
    method WaitEvent(timeout: bool) returns (ended: bool, code: Code)
      requires !pending.None? && !dropped
      modifies `pending, `moved, `dropped
      ensures dropped == (ended && code.ending.Dropped?)
      ensures !ended ==> timeout && pending == old(pending) && moved == old(moved)
      ensures ended ==>
        && pending.None? && !code.ending.Cancelled? && Fits(old(pending), code)
        && moved == old(moved) + code.bytes
      ensures ended && code.ending.Completed? && old(pending) != WriteOf([]) && old(pending) != ReadInto(0) ==>
        code.bytes != []
    {
      if timeout { ended, code := PollEvent(); } else { code := Finish(); ended := true; }
    }

    /** Waits or asks for the end of the operation in flight; the stream is in use during the wait. */
    method NextEvent(blocking: bool, timeout: bool) returns (ended: bool, code: Code)
      requires !pending.None? && !dropped && !blocked
      modifies `pending, `moved, `dropped, `blocked
      ensures !blocked && dropped == (ended && code.ending.Dropped?)
      ensures !ended ==> (blocking ==> timeout) && pending == old(pending) && moved == old(moved)
      ensures ended ==>
        && pending.None? && !code.ending.Cancelled? && Fits(old(pending), code)
        && moved == old(moved) + code.bytes
      ensures ended && code.ending.Completed? && old(pending) != WriteOf([]) && old(pending) != ReadInto(0) ==>
        code.bytes != []
    {
      if blocking {
        blocked := true;
        ended, code := WaitEvent(timeout);
        blocked := false;
      } else {
        ended, code := PollEvent();
      }
    }

    /** Cancels the operation in flight, which may have transferred something, or even have ended, meanwhile. */
    method Cancel() returns (code: Code)
      requires !pending.None? && !dropped
      modifies `pending, `moved, `dropped
      ensures dropped == code.ending.Dropped?
      ensures pending.None? && Fits(old(pending), code) && moved == old(moved) + code.bytes
      ensures code.ending.Completed? && old(pending) != WriteOf([]) && old(pending) != ReadInto(0) ==> code.bytes != []
      ensures stuck && old(pending) != WriteOf([]) && old(pending) != ReadInto(0) ==> code == Code(Cancelled, [])
    {
      if stuck && pending != WriteOf([]) && pending != ReadInto(0) {
        pending := None;
        assert moved == moved + [];
        return Code(Cancelled, []);
      }
      if * {
        code := Finish();
        return;
      }
      var bytes: seq<Byte> := [];
      if pending.WriteOf? {
        var n: nat :| n <= |pending.data|;
        bytes := pending.data[..n];
      } else {
        bytes :| |bytes| <= pending.room;
      }
      moved := moved + bytes;
      pending := None;
      return Code(Cancelled, bytes);
    }

    /** Starts an operation and waits for it, up to the timeout: `__wasilibc_stream_block_on_timeout`. */
    method BlockOn(s: Status, timeout: bool) returns (timedOut: bool, code: Code)
      requires s.Blocked? <==> !pending.None?
      requires dropped == (s.Now? && s.code.ending.Dropped?)
      modifies `pending, `moved, `dropped
      ensures pending.None? && dropped == code.ending.Dropped?
      ensures s.Now? ==> !timedOut && code == s.code && moved == old(moved)
      ensures s.Blocked? ==>
        && Fits(old(pending), code) && moved == old(moved) + code.bytes
        && (timedOut ==> timeout && code.bytes == [] && code.ending.Cancelled?)
      ensures s.Blocked? && old(pending) != WriteOf([]) && old(pending) != ReadInto(0) && code.bytes == [] ==>
        timedOut || code.ending.Dropped?
    {
      timedOut := false;
      if s.Now? { return false, s.code; }
      var ended;
      ended, code := WaitEvent(timeout);
      if !ended {
        code := Cancel();
        timedOut := code.ending.Cancelled? && code.bytes == [];
      }
    }

    // ----- the flag machine

    /** `wasip3_io_update_code` */
    method UpdateCode(code: Code)
      requires inProgress && (zeroInProgress ==> !shouldBeReady)
      modifies `inProgress, `zeroInProgress, `shouldBeReady, `done
      ensures !inProgress && !zeroInProgress && shouldBeReady == (old(shouldBeReady) || old(zeroInProgress))
      ensures done == (old(done) || code.ending.Dropped?)
    {
      if code.ending.Dropped? { done := true; }
      inProgress := false;
      if zeroInProgress {
        zeroInProgress := false;
        assert !shouldBeReady;
        shouldBeReady := true;
      }
    }

    /** `wasip3_start_zero_length`: an empty operation as a readiness test. */
    method StartZeroLength() returns (started: bool)
      requires Valid() && open && !inProgress && !shouldBeReady && !done && !mustBuffer && (buf == null)
      modifies `pending, `moved, `dropped, `inProgress, `zeroInProgress, `shouldBeReady, `done
      ensures Valid() && started == inProgress && zeroInProgress == inProgress && moved == old(moved)
      ensures (!started ==> shouldBeReady) && done == dropped
    {
      var status;
      if writable { status := StreamWrite([]); } else { status := StreamRead(0); }
      assert !inProgress && !zeroInProgress && !shouldBeReady && !done;
      inProgress := true;
      zeroInProgress := true;
      if status.Blocked? { return true; }
      UpdateCode(status.code);
      assert moved == old(moved) + [];
      return false;
    }

    // ----- writes

    /** The stream has just reported `code` for the write in flight. */
    ghost predicate WriteEnded(code: Code)
      reads this, buf
    {
      && writable && open && inProgress && pending.None? && !done && dropped == code.ending.Dropped? &&
        !code.ending.Cancelled?
      && (zeroInProgress ==> !shouldBeReady) && (mustBuffer ==> !zeroInProgress && !shouldBeReady)
      && (buf == null <==> zeroInProgress) && (buf != null ==> mustBuffer)
      && (buf != null ==>
        && bufStart < bufEnd <= buf.Length && code.bytes <= Buffered()
        && moved + Buffered()[|code.bytes|..] == reported)
      && (buf == null ==> bufStart == 0 && bufEnd == 0 && code.bytes == [] && moved == reported)
    }

    /** One more write of what is left in the buffer. */
    method WriteRest() returns (stuck: bool)
      requires Settled() && !done && bufStart < bufEnd
      modifies `pending, `moved, `dropped, `inProgress, `zeroInProgress, `shouldBeReady, `done, `bufStart
      ensures stuck ==> Valid() && inProgress && !zeroInProgress && !done && bufStart == old(bufStart)
      ensures !stuck ==> Settled() && old(bufStart) <= bufStart <= bufEnd && (done || old(bufStart) < bufStart)
    {
      hide Valid;
      ghost var rest := Buffered();
      var status := StreamWrite(buf[bufStart..bufEnd]);
      inProgress := true;
      if status.Blocked? {
        WriteWaits();
        return true;
      }
      Conserve(old(moved), status.code.bytes, rest);
      assert WriteEnded(status.code);
      SettleWrite(status.code);
      return false;
    }

    /** A write from the internal buffer is in flight. */
    lemma WriteWaits()
      requires writable && open && inProgress && !zeroInProgress && !shouldBeReady && mustBuffer && !blocked
      requires !done && !dropped && buf != null && bufStart < bufEnd <= buf.Length
      requires pending == WriteOf(Buffered()) && moved + Buffered() == reported
      ensures Valid()
    {
    }

    /** Takes up the end of a write. */
    method SettleWrite(code: Code)
      requires WriteEnded(code) && !blocked
      modifies `inProgress, `zeroInProgress, `shouldBeReady, `done, `bufStart
      ensures Settled() && bufStart == old(bufStart) + |code.bytes| <= bufEnd
      ensures done == code.ending.Dropped? && (buf == null ==> shouldBeReady)
    {
      ghost var rest := Buffered();
      UpdateCode(code);
      bufStart := bufStart + |code.bytes|;
      assert buf != null ==> Buffered() == rest[|code.bytes|..];
    }

    /** The buffer is given up when it has gone out or the peer is gone. */
    method DropBuffer()
      requires Settled() && (done || bufStart == bufEnd) && (buf == null ==> shouldBeReady)
      modifies `buf, `bufStart, `bufEnd
      ensures Valid() && !inProgress && !blocked && ReadyToWrite() && buf == null
    {
      assert Buffered() == [] ==> moved == reported;
      buf := null;
      bufStart, bufEnd := 0, 0;
      QuietIdle();
    }

    /** `wasip3_advance_pending_write`: goes on with a buffered write until it blocks or is done. */
    method AdvancePendingWrite(code: Code) returns (ready: bool)
      requires WriteEnded(code) && !blocked
      modifies `pending, `moved, `dropped, `inProgress, `zeroInProgress, `shouldBeReady, `done, `buf, `bufStart, `bufEnd
      ensures Valid() && ready == !inProgress && reported == old(reported) &&
        buf == (if ready then null else old(buf)) && !blocked
      ensures code.ending.Dropped? ==> ready
      ensures ready ==> ReadyToWrite()
      ensures !ready ==> 0 < bufEnd - bufStart <= old(bufEnd) - old(bufStart) - |code.bytes| && !zeroInProgress
    {
      hide Valid, Settled, WriteEnded, ReadyToWrite;
      SettleWrite(code);
      while !done && bufStart != bufEnd
        invariant Settled() && old(bufStart) + |code.bytes| <= bufStart <= bufEnd == old(bufEnd) && buf == old(buf) &&
          (buf == null ==> shouldBeReady)
        decreases if done then 0 else 1, bufEnd - bufStart
      {
        var stuck := WriteRest();
        if stuck { return false; }
      }
      DropBuffer();
      return true;
    }

    /** Nothing is in flight, and the buffer holds what is still to be written. */
    ghost predicate Settled()
      reads this, buf
    {
      && writable && open && !inProgress && !zeroInProgress && pending.None? && !blocked && done == dropped &&
        (mustBuffer ==> !shouldBeReady)
      && (buf != null ==> mustBuffer && bufStart <= bufEnd <= buf.Length) &&
        (buf == null ==> bufStart == 0 && bufEnd == 0)
      && moved + Buffered() == reported
    }

    /** Nothing is pending at all. */
    ghost predicate Idle()
      reads this, buf
    {
      Valid() && open && !inProgress && !blocked
    }

    /** Nothing is pending, and nothing is in the buffer. */
    ghost predicate Quiet()
      reads this
    {
      && open && !inProgress && !zeroInProgress && !blocked && pending.None? && buf == null && bufStart == 0 &&
        bufEnd == 0
      && done == dropped && (mustBuffer ==> !shouldBeReady)
      && (if writable && dropped then moved <= reported else moved == reported)
    }

    lemma QuietIdle()
      ensures Quiet() <==> Idle() && buf == null
    {
      assert moved + [] == moved && reported + [] == reported;
    }

    /** A nonblocking write will not have to wait. */
    ghost predicate ReadyToWrite()
      reads this
    {
      !blocked && (!open || done || (!inProgress && (shouldBeReady || mustBuffer)))
    }

    /** A readiness test has ended, and nothing else is known about the next read. */
    ghost predicate Tested()
      reads this
    {
      open && !done && !inProgress && buf == null && shouldBeReady && !mustBuffer
    }

    /** What poll takes for readiness of a reader: data, the end, or a readiness test that has ended. */
    ghost predicate ReadyToRead()
      reads this
    {
      !blocked && (!open || done || (!inProgress && (buf != null || Tested())))
    }

    /** Waits or asks for the end of the write in flight. */
    method NextWriteEvent(blocking: bool, timeout: bool) returns (ended: bool, code: Code)
      requires Valid() && writable && open && inProgress && !blocked
      modifies `pending, `moved, `dropped, `blocked
      ensures !blocked && (ended ==> WriteEnded(code) && (buf == null || code.bytes != [] || code.ending.Dropped?))
      ensures !ended ==> Valid() && moved == old(moved) && (blocking ==> timeout)
    {
      ghost var rest := Buffered();
      ended, code := NextEvent(blocking, timeout);
      if ended { Conserve(old(moved), code.bytes, rest); }
    }

    /** `wasip3_write_resolve_pending` */
    method ResolvePendingWrite(blocking: bool, timeout: bool) returns (r: Resolution)
      requires Valid() && writable && open && !blocked
      modifies `pending, `moved, `dropped, `inProgress, `zeroInProgress, `shouldBeReady, `done, `blocked, `buf,
        `bufStart, `bufEnd
      ensures Valid() && !blocked && reported == old(reported)
      ensures r.Resolved? <==> !inProgress
      ensures r.Unresolved? ==> !blocking
      ensures r.ResolveTimedOut? ==> blocking && timeout
      ensures old(ReadyToWrite()) ==> r.Resolved? && ReadyToWrite()
      ensures buf == old(buf) || buf == null
    {
      if !inProgress { return Resolved; }
      assert buf != null || zeroInProgress;
      while true
        invariant Valid() && inProgress && !blocked && reported == old(reported) && buf == old(buf)
        decreases bufEnd - bufStart
      {
        var ended, code := NextWriteEvent(blocking, timeout);
        if !ended { return if blocking then ResolveTimedOut else Unresolved; }
        var ready := AdvancePendingWrite(code);
        if ready { return Resolved; }
        if !blocking { return Unresolved; }
      }
    }

    /** Clears the sign of readiness, which is good for one attempt. */
    method TakeReadiness() returns (was: bool)
      requires Idle()
      modifies `shouldBeReady
      ensures Idle() && !shouldBeReady && was == old(shouldBeReady)
    {
      was := shouldBeReady;
      shouldBeReady := false;
    }

    /** The opportunistic write with the caller's own buffer, which must not outlive the call. */
    method TryWrite(data: seq<Byte>, expected: bool) returns (code: Code)
      requires Idle() && writable && !shouldBeReady && !done && !mustBuffer && data != [] && buf == null
      modifies `pending, `moved, `dropped, `inProgress, `zeroInProgress, `shouldBeReady, `mustBuffer, `done, `reported
      ensures Idle() && code.bytes <= data && reported == old(reported) + code.bytes && !shouldBeReady
      ensures done == dropped == code.ending.Dropped?
      ensures expected && code.bytes == [] && !done ==> mustBuffer
      ensures !expected ==> !mustBuffer
    {
      hide Valid;
      QuietIdle();
      var status := StreamWrite(data);
      inProgress := true;
      if status.Blocked? {
        if expected { mustBuffer := true; }
        code := Cancel();
      } else {
        code := status.code;
      }
      UpdateCode(code);
      reported := reported + code.bytes;
      assert Quiet();
      QuietIdle();
    }

    static method Copy(data: seq<Byte>) returns (a: array<Byte>)
      ensures fresh(a) && a.Length == |data| && a[..] == data
    {
      a := new Byte[|data|];
      forall i | 0 <= i < |data| { a[i] := data[i]; }
    }

    /** The write that is in flight goes on from the copy. */
    method KeepCopy(copy: array<Byte>, data: seq<Byte>)
      requires writable && open && inProgress && !zeroInProgress && !shouldBeReady && mustBuffer && !done && !dropped &&
        !blocked
      requires pending == WriteOf(data) && data != [] && copy[..] == data && moved == reported
      modifies `buf, `bufStart, `bufEnd, `reported
      ensures Valid() && buf == copy && reported == old(reported) + data
    {
      buf := copy;
      bufStart, bufEnd := 0, copy.Length;
      assert Buffered() == data;
      reported := reported + data;
    }

    /** The write from an internal copy of the caller's buffer: if it blocks, it counts as done. */
    method BufferedWrite(data: seq<Byte>, mallocOk: bool) returns (r: Result)
      requires Idle() && writable && !shouldBeReady && !done && mustBuffer && data != [] && buf == null
      modifies `pending, `moved, `dropped, `inProgress, `zeroInProgress, `shouldBeReady, `done, `buf, `bufStart,
        `bufEnd, `reported
      ensures Valid() && !blocked
      ensures (r.NoMemory? && !mallocOk && buf == null) || (r.Amount? && r.bytes <= data && (r.bytes != [] || dropped))
      ensures reported == old(reported) + (if r.Amount? then r.bytes else [])
      ensures buf == null || fresh(buf)
    {
      hide Valid;
      QuietIdle();
      assert reported + [] == reported;
      if !mallocOk { return NoMemory; }
      var copy := Copy(data);
      var status := StreamWrite(data);
      inProgress := true;
      if status.Blocked? {
        KeepCopy(copy, data);
        return Amount(data);
      }
      UpdateCode(status.code);
      reported := reported + status.code.bytes;
      assert Quiet();
      QuietIdle();
      return Amount(status.code.bytes);
    }

    /** The loop for nonblocking writes; it makes at most two passes. */
    method NonblockingWrite(data: seq<Byte>, mallocOk: bool) returns (r: Result, ghost passes: nat)
      requires Idle() && writable && !done && data != [] && buf == null
      modifies `pending, `moved, `dropped, `inProgress, `zeroInProgress, `shouldBeReady, `mustBuffer, `done, `buf,
        `bufStart, `bufEnd, `reported
      ensures Valid() && !blocked
      ensures 1 <= passes <= 2 && (old(mustBuffer) ==> mustBuffer)
      ensures (r.NoMemory? && !mallocOk && mustBuffer && buf == null) || (r.WouldBlock? && inProgress) ||
        (r.Amount? && r.bytes <= data && (r.bytes != [] || dropped))
      ensures old(ReadyToWrite()) ==> !r.WouldBlock?
      ensures reported == old(reported) + (if r.Amount? then r.bytes else [])
      ensures buf == null || fresh(buf)
    {
      hide Valid;
      assert reported + [] == reported;
      passes := 0;
      while true
        invariant Idle() && !done && reported == old(reported) && buf == null
        invariant passes <= 1 && (passes == 1 ==> shouldBeReady && !old(ReadyToWrite()))
        invariant passes == 0 ==> shouldBeReady == old(shouldBeReady) && mustBuffer == old(mustBuffer)
        decreases 2 - passes
      {
        passes := passes + 1;
        var expected := TakeReadiness();
        if !mustBuffer {
          var code := TryWrite(data, expected);
          if code.bytes != [] { return Amount(code.bytes), passes; }
          if done { return Amount([]), passes; }
        }
        if mustBuffer { break; }
        var started := StartZeroLength();
        if started { return WouldBlock, passes; }
        if done { return Amount([]), passes; }
        assert shouldBeReady;
      }
      r := BufferedWrite(data, mallocOk);
    }

    method BlockingWrite(data: seq<Byte>, timeout: bool) returns (r: Result)
      requires Idle() && writable && !done && data != [] && buf == null
      modifies `pending, `moved, `dropped, `shouldBeReady, `done, `blocked, `reported
      ensures Idle()
      ensures (r.TimedOut? && timeout) || (r.Amount? && r.bytes <= data && (r.bytes != [] || dropped))
      ensures reported == old(reported) + (if r.Amount? then r.bytes else [])
    {
      hide Valid;
      QuietIdle();
      assert reported + [] == reported;
      shouldBeReady := false;
      blocked := true;
      var status := StreamWrite(data);
      var timedOut, code := BlockOn(status, timeout);
      blocked := false;
      if code.ending.Dropped? { done := true; }
      reported := reported + code.bytes;
      assert Quiet();
      QuietIdle();
      if timedOut { return TimedOut; }
      return Amount(code.bytes);
    }

    /** `__wasilibc_write` */
    method Write(data: seq<Byte>, blocking: bool, timeout: bool, mallocOk: bool) returns (r: Result)
      requires Valid() && writable
      modifies this
      ensures Valid() && blocked == old(blocked) && open == old(open)
      ensures (r.Busy? <==> old(blocked) && !blocking) && (r.Waiting? <==> old(blocked) && blocking)
      ensures r.Amount? ==> r.bytes <= data && (r.bytes != [] || data == [] || dropped || !open)
      ensures reported == old(reported) + (if r.Amount? then r.bytes else [])
      ensures r.WouldBlock? ==> !blocking && inProgress && !old(ReadyToWrite())
      ensures r.NoMemory? ==> !mallocOk && !blocking && mustBuffer && buf == null
      ensures (r.TimedOut? ==> blocking && timeout) && (old(mustBuffer) ==> mustBuffer)
      ensures buf == old(buf) || buf == null || fresh(buf)
    {
      assert reported + [] == reported;
      if blocked { return if blocking then Waiting else Busy; }
      if !open { return Amount([]); }
      var resolution := ResolvePendingWrite(blocking, timeout);
      if resolution.Unresolved? { return WouldBlock; }
      if resolution.ResolveTimedOut? { return TimedOut; }
      assert !inProgress && !zeroInProgress;
      if data == [] || done { return Amount([]); }
      ghost var passes;
      if blocking { r := BlockingWrite(data, timeout); } else { r, passes := NonblockingWrite(data, mallocOk); }
    }

    /** A writer that is closed. */
    ghost predicate Closed()
      reads this
    {
      && !open && !inProgress && !zeroInProgress && !shouldBeReady && !mustBuffer && !done && !blocked && pending.None?
      && buf == null && bufStart == 0 && bufEnd == 0 && (if dropped then moved <= reported else moved == reported)
    }

    lemma ClosedValid()
      requires writable && !open
      ensures Closed() <==> Valid()
    {
      assert moved + [] == moved;
    }

    /** Waits for a buffered write to go out, and cancels a readiness test. */
    method Flush()
      requires Valid() && writable && open && !blocked
      modifies `pending, `moved, `dropped, `inProgress, `zeroInProgress, `shouldBeReady, `done, `blocked, `buf,
        `bufStart, `bufEnd
      ensures pending.None? && !blocked && reported == old(reported) && (done ==> dropped)
      ensures if dropped then moved <= reported else moved == reported
    {
      if inProgress && !zeroInProgress {
        var r := ResolvePendingWrite(true, false);
        assert r.Resolved? && !inProgress;
      }
      if inProgress {
        var code := Cancel();
        assert code.bytes == [] && moved + [] == moved;
      }
    }

    /** `wasip3_write_state_close`: unless the peer is gone, everything that was reported as written
        goes out first. */
    method Close() returns (peerGone: bool)
      requires Valid() && writable && !blocked
      modifies this
      ensures !open && Valid() && reported == old(reported)
      ensures (peerGone ==> dropped) && (!dropped ==> moved == reported)
    {
      hide Valid;
      peerGone := false;
      if !open {
        ClosedValid();
        return;
      }
      Flush();
      peerGone := done;
      open, inProgress, zeroInProgress, shouldBeReady, mustBuffer, done := false, false, false, false, false, false;
      buf, bufStart, bufEnd := null, 0, 0;
      ClosedValid();
    }

    // ----- reads

    /** The stream has just reported `code` for the read in flight. */
    ghost predicate ReadEnded(code: Code)
      reads this
    {
      && !writable && open && inProgress && pending.None? && !done && dropped == code.ending.Dropped?
      && (zeroInProgress ==> !shouldBeReady) && (mustBuffer ==> !zeroInProgress && !shouldBeReady)
      && (buf == null <==> zeroInProgress) && bufStart == 0 && bufEnd == 0
      && (if buf != null then |code.bytes| <= buf.Length &&
        (code.bytes != [] || code.ending.Dropped?) else code.bytes == [])
      && reported + code.bytes == moved
    }

    /** Waits or asks for the end of the read in flight. */
    method NextReadEvent(blocking: bool, timeout: bool) returns (ended: bool, code: Code)
      requires Valid() && !writable && open && inProgress && !blocked
      modifies `pending, `moved, `dropped, `blocked
      ensures !blocked && (ended ==> ReadEnded(code))
      ensures !ended ==> Valid() && moved == old(moved) && (blocking ==> timeout)
    {
      assert Buffered() == [] && reported + [] == reported;
      ended, code := NextEvent(blocking, timeout);
    }

    /** Takes up what the read delivered into the internal buffer. */
    method SettleRead(code: Code)
      requires ReadEnded(code) && !blocked
      modifies `inProgress, `zeroInProgress, `shouldBeReady, `done, `bufEnd, buf
      ensures Idle() && !zeroInProgress && moved == old(moved) && (old(zeroInProgress) ==> shouldBeReady)
    {
      UpdateCode(code);
      if buf != null {
        forall i | 0 <= i < |code.bytes| { buf[i] := code.bytes[i]; }
        assert buf[0..|code.bytes|] == code.bytes;
      }
      bufEnd := |code.bytes|;
    }

    /** `wasip3_read_complete_internally` */
    method CompleteInternally(length: nat) returns (bytes: seq<Byte>)
      requires Idle() && !writable && buf != null
      modifies `buf, `bufStart, `bufEnd, `reported
      ensures Idle() && |bytes| <= length && reported == old(reported) + bytes && (buf == old(buf) || buf == null)
      ensures bytes == [] ==> length == 0 || dropped
      ensures bytes <= old(Buffered()) && (|bytes| == length || bytes == old(Buffered()))
    {
      ghost var had := Buffered();
      var amount := if bufEnd - bufStart < length then bufEnd - bufStart else length;
      bytes := buf[bufStart..bufStart + amount];
      assert had == bytes + buf[bufStart + amount..bufEnd];
      reported := reported + bytes;
      bufStart := bufStart + amount;
      assert reported + buf[bufStart..bufEnd] == old(reported) + had;
      if bufStart == bufEnd {
        buf := null;
        bufStart, bufEnd := 0, 0;
      }
    }

    /** A read into the internal buffer is in flight. */
    lemma ReadWaits()
      requires !writable && open && inProgress && !zeroInProgress && !shouldBeReady && mustBuffer && !blocked
      requires !done && !dropped && buf != null && bufStart == 0 && bufEnd == 0 && buf.Length > 0
      requires pending == ReadInto(buf.Length) && moved == reported
      ensures Valid()
    {
      assert Buffered() == [] && reported + [] == reported;
    }

    /** `wasip3_read_start_nonzero`: a read into an internal buffer. */
    method StartNonzeroRead(length: nat, mallocOk: bool) returns (r: Result)
      requires Idle() && !writable && mustBuffer && !shouldBeReady && !done && buf == null && length > 0
      modifies `pending, `moved, `dropped, `inProgress, `zeroInProgress, `shouldBeReady, `done, `buf, `bufStart, `bufEnd
      ensures Valid() && !blocked && (r.NoMemory? || r.WouldBlock? || r == Amount([])) && reported == old(reported)
      ensures r.WouldBlock? <==> inProgress
      ensures (r.NoMemory? ==> !mallocOk && buf == null) && (stuck && mallocOk ==> r.WouldBlock?) && !zeroInProgress
      ensures r.Amount? <==> buf != null && !inProgress
      ensures buf == null || fresh(buf)
    {
      hide Valid;
      QuietIdle();
      if !mallocOk { return NoMemory; }
      var room := new Byte[length];
      buf := room;
      bufStart, bufEnd := 0, 0;
      var status := StreamRead(length);
      inProgress := true;
      if status.Blocked? {
        ReadWaits();
        return WouldBlock;
      }
      var code := status.code;
      assert ReadEnded(code);
      SettleRead(code);
      return Amount([]);
    }

    /** The opportunistic read into the caller's own buffer, which must not outlive the call. */
    method TryRead(length: nat, expected: bool) returns (code: Code)
      requires Idle() && !writable && !shouldBeReady && !done && !mustBuffer && length > 0 && buf == null
      modifies `pending, `moved, `dropped, `inProgress, `zeroInProgress, `shouldBeReady, `mustBuffer, `done, `reported
      ensures Idle() && |code.bytes| <= length && reported == old(reported) + code.bytes && !shouldBeReady
      ensures done == dropped == code.ending.Dropped?
      ensures expected && code.bytes == [] && !done ==> mustBuffer
      ensures !expected ==> !mustBuffer
      ensures stuck ==> code.bytes == [] && !done
    {
      hide Valid;
      QuietIdle();
      var status := StreamRead(length);
      inProgress := true;
      if status.Blocked? {
        if expected { mustBuffer := true; }
        code := Cancel();
      } else {
        code := status.code;
      }
      UpdateCode(code);
      reported := reported + code.bytes;
      assert Quiet();
      QuietIdle();
    }

    /** The loop for nonblocking reads; it makes at most two passes. */
    method NonblockingRead(length: nat, mallocOk: bool) returns (r: Result, ghost passes: nat)
      requires Idle() && !writable && !done && length > 0 && buf == null
      modifies `pending, `moved, `dropped, `inProgress, `zeroInProgress, `shouldBeReady, `mustBuffer, `done, `buf,
        `bufStart, `bufEnd, `reported
      ensures Valid() && !blocked
      ensures 1 <= passes <= 2 && (old(mustBuffer) ==> mustBuffer)
      ensures r.WouldBlock? && (old(shouldBeReady) || old(mustBuffer)) ==> mustBuffer && !zeroInProgress
      ensures stuck && mallocOk && (old(shouldBeReady) || old(mustBuffer)) ==> r.WouldBlock?
      ensures (r.NoMemory? && !mallocOk && mustBuffer && buf == null) || (r.WouldBlock? && inProgress) ||
        (r.Amount? && |r.bytes| <= length && (r.bytes != [] || dropped))
      ensures reported == old(reported) + (if r.Amount? then r.bytes else [])
      ensures buf == null || fresh(buf)
    {
      hide Valid;
      assert reported + [] == reported;
      passes := 0;
      while true
        invariant Idle() && !done && reported == old(reported) && buf == null
        invariant passes <= 1 && (passes == 1 ==> shouldBeReady && !old(shouldBeReady) && !old(mustBuffer))
        invariant passes == 0 ==> shouldBeReady == old(shouldBeReady) && mustBuffer == old(mustBuffer)
        decreases 2 - passes
      {
        passes := passes + 1;
        var expected := TakeReadiness();
        if !mustBuffer {
          var code := TryRead(length, expected);
          if code.bytes != [] { return Amount(code.bytes), passes; }
          if done { return Amount([]), passes; }
        }
        if mustBuffer { break; }
        var started := StartZeroLength();
        if started { return WouldBlock, passes; }
        if done { return Amount([]), passes; }
        assert shouldBeReady;
      }
      r := StartNonzeroRead(length, mallocOk);
      if r.Amount? {
        var bytes := CompleteInternally(length);
        r := Amount(bytes);
      }
    }

    /** Takes up the read in flight, if there is one, and if it has ended. */
    method ResolvePendingRead(blocking: bool, timeout: bool) returns (resolved: bool)
      requires Valid() && !writable && open && !blocked
      modifies `pending, `moved, `dropped, `blocked, `inProgress, `zeroInProgress, `shouldBeReady, `done, `bufEnd, buf
      ensures Valid() && !blocked && done == dropped && (resolved <==> !inProgress)
      ensures !resolved ==> old(inProgress) && (blocking ==> timeout)
      ensures if old(inProgress) then !old(done) else
        shouldBeReady == old(shouldBeReady) && done == old(done) && Buffered() == old(Buffered())
    {
      resolved := true;
      if inProgress {
        var code;
        resolved, code := NextReadEvent(blocking, timeout);
        if resolved { SettleRead(code); }
      }
    }

    method BlockingRead(length: nat, timeout: bool) returns (r: Result)
      requires Idle() && !writable && !done && length > 0 && buf == null
      modifies `pending, `moved, `dropped, `shouldBeReady, `done, `blocked, `reported
      ensures Idle()
      ensures (r.TimedOut? && timeout) || (r.Amount? && |r.bytes| <= length && (r.bytes != [] || dropped))
      ensures reported == old(reported) + (if r.Amount? then r.bytes else [])
    {
      hide Valid;
      QuietIdle();
      assert reported + [] == reported;
      shouldBeReady := false;
      blocked := true;
      var status := StreamRead(length);
      var timedOut, code := BlockOn(status, timeout);
      blocked := false;
      if code.ending.Dropped? { done := true; }
      reported := reported + code.bytes;
      assert Quiet();
      QuietIdle();
      if timedOut { return TimedOut; }
      return Amount(code.bytes);
    }

    /** `__wasilibc_read` */
    method Read(length: nat, blocking: bool, timeout: bool, mallocOk: bool) returns (r: Result)
      requires Valid() && !writable
      modifies this, buf
      ensures Valid() && blocked == old(blocked) && open == old(open)
      ensures (r.Busy? <==> old(blocked) && !blocking) && (r.Waiting? <==> old(blocked) && blocking)
      ensures r.Amount? ==> |r.bytes| <= length && (r.bytes != [] || length == 0 || dropped || !open)
      ensures reported == old(reported) + (if r.Amount? then r.bytes else [])
      ensures old(Idle()) && old(buf) != null ==>
        r.Amount? && r.bytes <= old(Buffered()) && (|r.bytes| == length || r.bytes == old(Buffered()))
      ensures r.WouldBlock? ==> !blocking && inProgress && (old(inProgress) || old(buf) == null)
      ensures r.NoMemory? ==> !mallocOk && !blocking && mustBuffer && buf == null
      ensures r.WouldBlock? && old(ReadyToRead()) ==> old(Tested()) && mustBuffer && !zeroInProgress
      ensures old(Tested()) && !old(blocked) && old(stuck) && !blocking && mallocOk && length > 0 ==> r.WouldBlock?
      ensures (r.TimedOut? ==> blocking && timeout) && (old(mustBuffer) ==> mustBuffer)
      ensures buf == old(buf) || buf == null || fresh(buf)
    {
      hide Valid;
      assert reported + [] == reported;
      if blocked { return if blocking then Waiting else Busy; }
      if !open { return Amount([]); }
      var resolved := ResolvePendingRead(blocking, timeout);
      if !resolved { return if blocking then TimedOut else WouldBlock; }
      if buf != null {
        var bytes := CompleteInternally(length);
        return Amount(bytes);
      }
      if length == 0 || done { return Amount([]); }
      ghost var passes;
      if blocking { r := BlockingRead(length, timeout); } else { r, passes := NonblockingRead(length, mallocOk); }
    }

    // ----- poll

    /** `wasip3_stream_poll`; `added` says whether the poll could take one more event. */
    method Poll(mallocOk: bool, added: bool) returns (r: PollStatus)
      requires Valid()
      modifies this
      ensures Valid() && reported == old(reported) && open == old(open)
      ensures r.PollBusy? <==> old(blocked)
      ensures blocked == (old(blocked) || r.PollInProgress?) && (r.PollInProgress? ==> inProgress)
      ensures r.PollReady? ==> if writable then ReadyToWrite() else ReadyToRead()
      ensures !writable && old(ReadyToRead()) ==> r.PollReady? && Tested() == old(Tested())
      ensures writable && old(ReadyToWrite()) ==> r.PollReady?
      ensures r.PollError? ==> !added || (!writable && mustBuffer && !mallocOk)
      ensures mustBuffer == old(mustBuffer) && stuck == old(stuck)
      ensures buf == old(buf) || fresh(buf)
    {
      if blocked { return PollBusy; }
      r := PollInit(mallocOk);
      if r.PollInProgress? {
        if !added { return PollError; }
        blocked := true;
      }
    }

    /** `wasip3_stream_poll_init` */
    method PollInit(mallocOk: bool) returns (r: PollStatus)
      requires Valid() && !blocked
      modifies `pending, `moved, `dropped, `inProgress, `zeroInProgress, `shouldBeReady, `done, `buf, `bufStart, `bufEnd
      ensures Valid() && !blocked && reported == old(reported) && (r.PollInProgress? <==> inProgress) && !r.PollBusy?
      ensures r.PollReady? ==> if writable then ReadyToWrite() else ReadyToRead()
      ensures !writable && old(ReadyToRead()) ==> r.PollReady? && Tested() == old(Tested())
      ensures writable && old(ReadyToWrite()) ==> r.PollReady?
      ensures r.PollError? ==> !writable && mustBuffer && !mallocOk
      ensures mustBuffer == old(mustBuffer) && stuck == old(stuck)
      ensures buf == old(buf) || fresh(buf)
    {
      if !open || done { return PollReady; }
      if inProgress { return PollInProgress; }
      if !writable && buf != null { return PollReady; }
      if mustBuffer {
        if writable { return PollReady; }
        var started := StartNonzeroRead(16 * 1024, mallocOk);
        if started.WouldBlock? { return PollInProgress; }
        return if started.Amount? then PollReady else PollError;
      }
      if shouldBeReady { return PollReady; }
      var started := StartZeroLength();
      return if started then PollInProgress else PollReady;
    }

    /** `wasip3_poll_read_ready` and `wasip3_poll_write_ready`: the poll is over, with or without an
        event on this stream; tells whether the stream is ready. */
    method PollEnd(event: bool) returns (ready: bool)
      requires Valid() && blocked
      modifies this, buf
      ensures Valid() && !blocked && reported == old(reported) && open == old(open)
      ensures buf == old(buf) || buf == null
      ensures !event ==> !ready
      ensures event ==> if writable then ready <==> !inProgress else ready
      ensures ready ==> if writable then ReadyToWrite() else ReadyToRead()
      ensures mustBuffer == old(mustBuffer) && stuck == old(stuck)
    {
      assert open && inProgress;
      blocked := false;
      if !event { return false; }
      hide Valid, WriteEnded, ReadEnded, ReadyToWrite;
      if writable {
        var ended, code := NextWriteEvent(true, false);
        ready := AdvancePendingWrite(code);
      } else {
        var ended, code := NextReadEvent(true, false);
        SettleRead(code);
        ready := true;
      }
    }
  }
}
