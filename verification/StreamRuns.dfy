/** Whole histories of one end of a stream: what calls reported is what went through, in order. */
module StreamRuns {
  import opened StreamIo

  /** Calls on the end of a stream.  A poll that found the stream busy or ready needs no end, and a
      blocking call that has to wait for another one is made again.  In between, the stream may get
      stuck, or go on. */
  datatype Call =
    | DoWrite(data: seq<Byte>, blocking: bool, timeout: bool, mallocOk: bool)
    | DoRead(length: nat, blocking: bool, timeout: bool, mallocOk: bool)
    | DoPoll(mallocOk: bool, added: bool)
    | DoPollEnd(event: bool)
    | HostChanges(stuck: bool)

  /** What a call returned; calls for the other direction, and ends of polls that did not wait, are not made. */
  datatype Answer = Wrote(r: Result) | Gave(r: Result) | Polled(p: PollStatus) | Ended(ready: bool) | NotMade

  /** The bytes that calls reported as written, or handed out as read. */
  ghost function Reported(answers: seq<Answer>): seq<Byte> {
    if answers == [] then [] else Reported(answers[..|answers| - 1]) + Part(answers[|answers| - 1])
  }

  ghost function Part(a: Answer): seq<Byte> {
    if (a.Wrote? || a.Gave?) && a.r.Amount? then a.r.bytes else []
  }

  lemma ReportedAppend(answers: seq<Answer>, a: Answer)
    ensures Reported(answers + [a]) == Reported(answers) + Part(a)
  {
    assert (answers + [a])[..|answers + [a]| - 1] == answers;
  }

  /** What there is to see of a stream between calls. */
  datatype Sight = Sight(open: bool, blocked: bool, inProgress: bool, dropped: bool, mustBuffer: bool, ready: bool,
    tested: bool)

  ghost function See(s: IoState): Sight
    reads s
  {
    Sight(s.open, s.blocked, s.inProgress, s.dropped, s.mustBuffer,
      if s.writable then s.ReadyToWrite() else s.ReadyToRead(), s.Tested())
  }

  /** What a write or read may return: something, unless the peer is gone or the stream closed; a refusal
      or a wait exactly while the stream is in use; and that it would block, has timed out or lacks memory
      only if the call allows for it. */
  ghost predicate Explained(x: Sight, r: Result, empty: bool, blocking: bool, timeout: bool, mallocOk: bool, y: Sight) {
    && (r.Busy? <==> x.blocked && !blocking) && (r.Waiting? <==> x.blocked && blocking)
    && (r.Amount? && r.bytes == [] ==> empty || y.dropped || !y.open)
    && (r.WouldBlock? ==> !blocking && y.inProgress) && (r.TimedOut? ==> blocking && timeout)
    && (r.NoMemory? ==> !mallocOk && !blocking && y.mustBuffer)
  }

  /** The answer to a call on a stream that looked like `x` before and like `y` after it. */
  ghost predicate Answers(writable: bool, x: Sight, call: Call, a: Answer, y: Sight) {
    match call
    case DoWrite(data, blocking, timeout, mallocOk) =>
      if !writable then a.NotMade?
      else
        && a.Wrote? && Explained(x, a.r, data == [], blocking, timeout, mallocOk, y)
        && (a.r.Amount? ==> a.r.bytes <= data) && (a.r.WouldBlock? ==> !x.ready)
    case DoRead(length, blocking, timeout, mallocOk) =>
      if writable then a.NotMade?
      else
        && a.Gave? && Explained(x, a.r, length == 0, blocking, timeout, mallocOk, y)
        && (a.r.Amount? ==> |a.r.bytes| <= length) && (a.r.WouldBlock? && x.ready ==> x.tested)
    case DoPoll(mallocOk, added) =>
      && a.Polled? && (a.p.PollBusy? <==> x.blocked) && (a.p.PollReady? ==> y.ready)
      && (x.ready ==> a.p.PollReady?) && (a.p.PollInProgress? ==> y.blocked && y.inProgress)
      && (a.p.PollError? ==> !added || (!writable && y.mustBuffer && !mallocOk))
    case DoPollEnd(event) =>
      if !x.blocked then a.NotMade?
      else
        && a.Ended? && !y.blocked && (a.ready ==> event && y.ready)
        && (event ==> if writable then a.ready <==> !y.inProgress else a.ready)
    case HostChanges(_) => a.NotMade?
  }

  method DoTransfer(s: IoState, call: Call) returns (a: Answer)
    requires s.Valid() && (call.DoWrite? || call.DoRead?)
    modifies s, s.buf
    ensures s.Valid() && s.reported == old(s.reported) + Part(a) && s.open == old(s.open)
    ensures s.buf == old(s.buf) || s.buf == null || fresh(s.buf)
    ensures Answers(s.writable, old(See(s)), call, a, See(s))
    ensures old(s.mustBuffer) ==> s.mustBuffer
  {
    hide IoState.ReadyToRead, IoState.ReadyToWrite, IoState.Tested, IoState.Valid, IoState.WriterOk, IoState.ReaderOk,
      IoState.Flags;
    a := NotMade;
    assert s.reported + [] == s.reported;
    if call.DoWrite? && s.writable {
      var r := s.Write(call.data, call.blocking, call.timeout, call.mallocOk);
      a := Wrote(r);
    } else if call.DoRead? && !s.writable {
      var r := s.Read(call.length, call.blocking, call.timeout, call.mallocOk);
      a := Gave(r);
    }
  }

  /** One call, and its answer. */
  method Do(s: IoState, call: Call) returns (a: Answer)
    requires s.Valid()
    modifies s, s.buf
    ensures s.Valid() && s.reported == old(s.reported) + Part(a) && s.open == old(s.open)
    ensures s.buf == old(s.buf) || s.buf == null || fresh(s.buf)
    ensures Answers(s.writable, old(See(s)), call, a, See(s))
    ensures old(s.mustBuffer) ==> s.mustBuffer
  {
    hide IoState.ReadyToRead, IoState.ReadyToWrite, IoState.Tested, IoState.Valid, IoState.WriterOk, IoState.ReaderOk,
      IoState.Flags;
    a := NotMade;
    assert s.reported + [] == s.reported;
    match call
    case DoWrite(_, _, _, _) => a := DoTransfer(s, call);
    case DoRead(_, _, _, _) => a := DoTransfer(s, call);
    case DoPoll(mallocOk, added) =>
      var p := s.Poll(mallocOk, added);
      a := Polled(p);
    case DoPollEnd(event) =>
      if s.blocked {
        var ready := s.PollEnd(event);
        a := Ended(ready);
      }
    case HostChanges(stuck) =>
      GetStuck(s, stuck);
  }

  /** The stream stops transferring, or goes on. */
  method GetStuck(s: IoState, stuck: bool)
    requires s.Valid()
    modifies s`stuck
    ensures s.Valid() && See(s) == old(See(s))
  {
    s.stuck := stuck;
  }

  method DoAll(s: IoState, calls: seq<Call>) returns (ghost answers: seq<Answer>, ghost sights: seq<Sight>)
    requires s.Valid() && s.open && s.reported == []
    modifies s, s.buf
    ensures s.Valid() && s.open && s.reported == Reported(answers)
    ensures s.buf == old(s.buf) || s.buf == null || fresh(s.buf)
    ensures |answers| == |calls| && |sights| == |calls| + 1 && sights[0] == old(See(s)) && sights[|calls|] == See(s)
    ensures forall i :: 0 <= i < |calls| ==> Answers(s.writable, sights[i], calls[i], answers[i], sights[i + 1])
  {
    hide IoState.Valid, IoState.WriterOk, IoState.ReaderOk, IoState.Flags, See, Answers;
    answers, sights := [], [See(s)];
    for i := 0 to |calls|
      invariant (s.buf == old(s.buf) || s.buf == null || fresh(s.buf)) && s.Valid() && s.open
      invariant s.reported == Reported(answers) && |answers| == i
      invariant |sights| == i + 1 && sights[0] == old(See(s)) && sights[i] == See(s)
      invariant forall j :: 0 <= j < i ==> Answers(s.writable, sights[j], calls[j], answers[j], sights[j + 1])
    {
      var a := Do(s, calls[i]);
      ReportedAppend(answers, a);
      answers, sights := answers + [a], sights + [See(s)];
    }
  }

  /** Every call has an answer that what was to see of the stream explains.  Until the peer is gone, the
      bytes that went through the stream followed by those in the buffer are all the bytes that writes
      acknowledged; for reads, what was handed out followed by the buffer is what came through.  This
      holds however calls, short transfers, cancellations, timeouts and polls follow each other. */
  method Run(writable: bool, calls: seq<Call>)
      returns (s: IoState, ghost answers: seq<Answer>, ghost sights: seq<Sight>)
    ensures fresh(s) && (s.buf != null ==> fresh(s.buf)) && s.Valid() && s.open && s.writable == writable
    ensures |answers| == |calls| && |sights| == |calls| + 1 && sights[|calls|] == See(s)
    ensures forall i :: 0 <= i < |calls| ==> Answers(writable, sights[i], calls[i], answers[i], sights[i + 1])
    ensures s.done == s.dropped && s.reported == Reported(answers)
    ensures writable && !s.dropped ==> s.moved + s.Buffered() == Reported(answers)
    ensures writable && s.dropped ==> s.moved <= Reported(answers)
    ensures !writable ==> Reported(answers) + s.Buffered() == s.moved
  {
    hide See, Answers;
    s := new IoState(writable);
    answers, sights := DoAll(s, calls);
  }

  /** A closed writer has left nothing unsent, unless the peer went away first. */
  method RunAndClose(calls: seq<Call>) returns (s: IoState, ghost answers: seq<Answer>, peerGone: bool)
    ensures |answers| == |calls| && !s.open && s.moved <= Reported(answers)
    ensures (!s.dropped ==> s.moved == Reported(answers)) && (peerGone ==> s.dropped)
  {
    hide See, Answers;
    ghost var sights;
    s, answers, sights := Run(true, calls);
    if s.blocked { var ready := s.PollEnd(false); }
    peerGone := s.Close();
  }

  /** What poll promises about a writer: once it found the stream ready, a nonblocking write takes at
      least one byte, unless the peer is gone or there is no memory for the copy.  If it `waited`, and an
      event ended the wait, the stream is ready unless a write is still in flight. */
  method PollThenWrite(s: IoState, data: seq<Byte>, added: bool, event: bool, mallocOk: bool)
      returns (ready: bool, ghost waited: bool, r: Result)
    requires s.Valid() && s.writable && data != []
    modifies s, s.buf
    ensures waited && event && !ready ==> s.inProgress
    ensures s.Valid() && (ready ==> r.Amount? || (r.NoMemory? && !mallocOk))
    ensures ready && r.Amount? ==> r.bytes <= data && (r.bytes != [] || s.dropped || !s.open)
  {
    hide IoState.Valid, IoState.WriterOk, IoState.ReaderOk, IoState.Flags, IoState.ReadyToWrite;
    r := WouldBlock;
    var p := s.Poll(mallocOk, added);
    ready, waited := p.PollReady?, p.PollInProgress?;
    if p.PollInProgress? { ready := s.PollEnd(event); }
    if ready {
      r := s.Write(data, false, false, mallocOk);
    }
  }

  /** What poll promises about a reader: once it found the stream ready, a nonblocking read returns data
      or the end, except that it may wait if all that poll had to go by was a readiness test that ended.
      If the poll `waited`, every event that ended the wait found the stream ready.
      Such a stream is read through the internal buffer from then on. */
  method PollThenRead(s: IoState, length: nat, added: bool, event: bool, mallocOk: bool)
      returns (ready: bool, ghost waited: bool, ghost tested: bool, r: Result)
    requires s.Valid() && !s.writable && length > 0
    modifies s, s.buf
    ensures waited && event ==> ready
    ensures s.Valid() && (ready ==> r.Amount? || (r.NoMemory? && !mallocOk) || r.WouldBlock?)
    ensures ready && r.Amount? ==> |r.bytes| <= length && (r.bytes != [] || s.dropped || !s.open)
    ensures ready && r.WouldBlock? ==> tested && s.mustBuffer
    ensures s.buf == old(s.buf) || s.buf == null || fresh(s.buf)
    ensures old(s.mustBuffer) ==> !tested
  {
    hide IoState.Valid, IoState.WriterOk, IoState.ReaderOk, IoState.Flags, IoState.ReadyToRead;
    r := WouldBlock;
    var p := s.Poll(mallocOk, added);
    ready, waited := p.PollReady?, p.PollInProgress?;
    if p.PollInProgress? { ready := s.PollEnd(event); }
    tested := s.Tested();
    if ready {
      r := s.Read(length, false, false, mallocOk);
    }
  }

  /** The arguments of a poll and a read, and what happens in them. */
  datatype Attempt = Attempt(length: nat, added: bool, event: bool, mallocOk: bool)

  /** So this happens at most once, whatever calls are made in between. */
  method ReadyTwice(s: IoState, one: Attempt, calls: seq<Call>, two: Attempt)
      returns (first: bool, r1: Result, second: bool, r2: Result)
    requires s.Valid() && !s.writable && one.length > 0 && two.length > 0
    modifies s, s.buf
    ensures s.Valid() && (first && r1.WouldBlock? && second ==> !r2.WouldBlock?)
  {
    hide IoState.Valid, IoState.WriterOk, IoState.ReaderOk, IoState.Flags;
    ghost var waited, tested;
    first, waited, tested, r1 := PollThenRead(s, one.length, one.added, one.event, one.mallocOk);
    for i := 0 to |calls|
      invariant s.Valid() && (s.buf == old(s.buf) || s.buf == null || fresh(s.buf))
      invariant first && r1.WouldBlock? ==> s.mustBuffer
    {
      var a := Do(s, calls[i]);
    }
    second, waited, tested, r2 := PollThenRead(s, two.length, two.added, two.event, two.mallocOk);
  }

  /** The exception is real: a stream that transfers nothing, but whose readiness test has ended, is
      found ready, and the read has to wait. */
  method StuckReader(length: nat) returns (s: IoState, p: PollStatus, r: Result)
    requires length > 0
    ensures s.Valid() && p.PollReady? && r.WouldBlock?
  {
    s := new IoState(false);
    s.stuck := true;
    s.shouldBeReady := true;
    assert s.Valid() && s.Tested();
    p := s.Poll(true, true);
    r := s.Read(length, false, false, true);
  }
}
