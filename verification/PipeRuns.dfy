/** Every interleaving of threads on one pipe. */
module PipeRuns {
  import opened Pipes

  /** What a thread that waits is waiting in. */
  datatype Phase = Reading(length: nat) | Writing(data: seq<Byte>) | PollingRead | PollingWrite

  type Threads = map<int, Phase>

  /** The atomic steps.  A step that cannot be made, by a thread that waits or on a half that is
      closed, changes nothing; the half of a pipe is closed when no thread is in a call on it. */
  datatype Step =
    | Read(thread: int, length: nat, blocking: bool)
    | Write(thread: int, data: seq<Byte>, blocking: bool, mallocOk: bool)
    | PollRead(thread: int, added: bool)
    | PollWrite(thread: int, added: bool)
    | Wake(thread: int, blocking: bool)
    | Timeout(thread: int)
    | CloseReader
    | CloseWriter

  predicate OnReader(f: Phase) { f.Reading? || f.PollingRead? }

  // ----- what the pipe should do

  /** A call that returned, with its arguments and its result, or the closing of a half. */
  datatype Event =
    | Sent(data: seq<Byte>, blocking: bool, mallocOk: bool, wrote: WriteResult)
    | Got(length: nat, blocking: bool, read: ReadResult)
    | PolledRead(poll: PollResult)
    | PolledWrite(poll: PollResult)
    | ReaderClosed
    | WriterClosed

  /** The pipe as its users see it: the bytes in it, and the halves that are open. */
  datatype Contents = Contents(bytes: seq<Byte>, readerAlive: bool, writerAlive: bool)

  ghost function Next(s: Contents, e: Event): Contents {
    match e
    case Sent(data, _, _, r) =>
      if r.Wrote? && r.count <= |data| then s.(bytes := s.bytes + data[..r.count]) else s
    case Got(_, _, r) => if r.Data? && |r.bytes| <= |s.bytes| then s.(bytes := s.bytes[|r.bytes|..]) else s
    case PolledRead(_) => s
    case PolledWrite(_) => s
    case ReaderClosed => s.(readerAlive := false)
    case WriterClosed => s.(writerAlive := false)
  }

  /** What is in the pipe after these events. */
  ghost function After(log: seq<Event>): Contents {
    if log == [] then Contents([], true, true) else Next(After(log[..|log| - 1]), log[|log| - 1])
  }

  /** The event may happen to a pipe in this state.  A write goes through exactly if there is a reader and
      room for it, and then completely if it has at most PIPE_BUF bytes; a read returns exactly if there
      is something to read or no writer. */
  ghost predicate Allowed(s: Contents, e: Event) {
    match e
    case Sent(data, blocking, mallocOk, r) =>
      var full := NoRoom(|data|, |s.bytes|);
      && s.writerAlive
      && match r {
           case Wrote(n) =>
             if data == [] then n == 0
             else
               && s.readerAlive && !full && 0 < n <= |data| && |s.bytes| + n <= PIPE_BUF
               && (n == |data| || |s.bytes| + n == PIPE_BUF < |data|)
           case BrokenPipe => data != [] && !s.readerAlive
           case NoMemory => data != [] && !mallocOk && s.bytes == []
           case WriteWouldBlock => data != [] && s.readerAlive && full && !blocking
           case WriteUnsupported => data != [] && s.readerAlive && full && blocking
           case WriteBlocked => false
         }
    case Got(length, blocking, r) =>
      var empty := s.bytes == [] && s.writerAlive && length > 0;
      && s.readerAlive
      && match r {
           case Data(bytes) =>
             && !empty && bytes <= s.bytes
             && (|bytes| == length || (|bytes| < length && bytes == s.bytes))
           case ReadWouldBlock => empty && !blocking
           case ReadUnsupported => empty && blocking
           case ReadBlocked => false
         }
    case PolledRead(r) => s.readerAlive && (r.Ready? <==> s.bytes != [] || !s.writerAlive)
    case PolledWrite(r) => s.writerAlive && (r.Ready? <==> |s.bytes| < PIPE_BUF || !s.readerAlive)
    case ReaderClosed => s.readerAlive
    case WriterClosed => s.writerAlive
  }

  /** Every event was allowed when it happened. */
  ghost predicate Legal(log: seq<Event>) {
    forall i :: 0 <= i < |log| ==> Allowed(After(log[..i]), log[i])
  }

  lemma Happens(log: seq<Event>, e: Event)
    requires Legal(log) && Allowed(After(log), e)
    ensures Legal(log + [e]) && After(log + [e]) == Next(After(log), e)
  {
    var log' := log + [e];
    assert log'[..|log'| - 1] == log;
    forall i | 0 <= i < |log'|
      ensures Allowed(After(log'[..i]), log'[i])
    {
      if i < |log| { assert log'[..i] == log[..i]; }
    }
  }

  // ----- what follows from it

  /** The bytes that an event puts into the pipe, and those that it takes out. */
  ghost function Given(e: Event): seq<Byte> {
    if e.Sent? && e.wrote.Wrote? && e.wrote.count <= |e.data| then e.data[..e.wrote.count] else []
  }

  ghost function Taken(e: Event): seq<Byte> { if e.Got? && e.read.Data? then e.read.bytes else [] }

  /** The bytes of the writes that were accepted. */
  ghost function Delivered(log: seq<Event>): seq<Byte> {
    if log == [] then [] else Delivered(log[..|log| - 1]) + Given(log[|log| - 1])
  }

  /** The bytes that reads returned. */
  ghost function Received(log: seq<Event>): seq<Byte> {
    if log == [] then [] else Received(log[..|log| - 1]) + Taken(log[|log| - 1])
  }

  /** Bytes come out in the order in which they went in, and none is lost or made up. */
  lemma {:induction false} Conserved(log: seq<Event>)
    requires Legal(log)
    ensures Received(log) + After(log).bytes == Delivered(log) && |After(log).bytes| <= PIPE_BUF
    decreases |log|
  {
    hide Legal, Allowed, Next, Given, Taken;
    if log != [] {
      var low, e := log[..|log| - 1], log[|log| - 1];
      LegalBefore(log, |log| - 1);
      Conserved(low);
      ConservedStep(Received(low), After(low), Delivered(low), e);
    }
  }

  lemma ConservedStep(got: seq<Byte>, s: Contents, sent: seq<Byte>, e: Event)
    requires got + s.bytes == sent && |s.bytes| <= PIPE_BUF && Allowed(s, e)
    ensures (got + Taken(e)) + Next(s, e).bytes == sent + Given(e) && |Next(s, e).bytes| <= PIPE_BUF
  {
    if e.Sent? && e.wrote.Wrote? {
      assert got + (s.bytes + e.data[..e.wrote.count]) == (got + s.bytes) + e.data[..e.wrote.count];
    } else if e.Got? && e.read.Data? {
      Rejoin(got, s.bytes, |e.read.bytes|);
    }
  }

  lemma LegalBefore(log: seq<Event>, i: nat)
    requires Legal(log) && i < |log|
    ensures Legal(log[..i]) && Allowed(After(log[..i]), log[i])
  {
    forall j | 0 <= j < i
      ensures Allowed(After(log[..i][..j]), log[..i][j])
    {
      assert log[..i][..j] == log[..j];
    }
  }

  /** A read that asked for something has reported the end of file. */
  predicate Ended(e: Event) { e.Got? && e.length > 0 && e.read == Data([]) }

  /** After an end of file there is no writer and nothing to read, for good. */
  lemma {:induction false} EndOfFile(log: seq<Event>, i: nat)
    requires Legal(log) && i < |log| && Ended(log[i])
    ensures !After(log).writerAlive && After(log).bytes == []
    decreases |log|
  {
    hide Legal, Allowed, Next, Ended;
    var low, e := log[..|log| - 1], log[|log| - 1];
    LegalBefore(log, |log| - 1);
    if i < |log| - 1 { EndOfFile(low, i); }
    EndStays(After(low), e);
  }

  lemma EndStays(s: Contents, e: Event)
    requires Allowed(s, e) && (Ended(e) || (!s.writerAlive && s.bytes == []))
    ensures !Next(s, e).writerAlive && Next(s, e).bytes == []
  {
  }

  /** A write of up to PIPE_BUF bytes is accepted whole. */
  lemma Atomic(log: seq<Event>, i: nat)
    requires Legal(log) && i < |log| && log[i].Sent? && log[i].wrote.Wrote? && |log[i].data| <= PIPE_BUF
    ensures log[i].wrote.count == |log[i].data|
  {
    LegalBefore(log, i);
  }

  // ----- threads

  /** At most one thread waits on each half, and the flags `r` and `w` say whether one does. */
  ghost predicate Waiting(r: bool, w: bool, buffered: bool, ts: Threads) {
    && (forall t :: t in ts ==> (if OnReader(ts[t]) then r else w))
    && (forall t, u :: t in ts && u in ts && OnReader(ts[t]) == OnReader(ts[u]) ==> t == u)
    && (r ==> exists t :: t in ts && OnReader(ts[t]))
    && (w ==> exists t :: t in ts && !OnReader(ts[t]))
    && (forall t :: t in ts && ts[t].Reading? ==> ts[t].length > 0)
    && (forall t :: t in ts && ts[t].Writing? ==> ts[t].data != [] && buffered)
  }

  lemma Arrive(r: bool, w: bool, buffered: bool, buffered': bool, ts: Threads, t: int, f: Phase)
    requires Waiting(r, w, buffered, ts) && t !in ts && (buffered ==> buffered') && (if OnReader(f) then !r else !w)
    requires (f.Reading? ==> f.length > 0) && (f.Writing? ==> f.data != [] && buffered')
    ensures Waiting(r || OnReader(f), w || !OnReader(f), buffered', ts[t := f])
  {
    var ts' := ts[t := f];
    assert t in ts';
    assert forall u :: u in ts ==> u in ts' && ts'[u] == ts[u];
  }

  lemma Leave(r: bool, w: bool, buffered: bool, ts: Threads, t: int)
    requires Waiting(r, w, buffered, ts) && t in ts
    ensures Waiting(r && !OnReader(ts[t]), w && OnReader(ts[t]), buffered, ts - {t})
  {
    var ts' := ts - {t};
    if OnReader(ts[t]) && w {
      var u :| u in ts && !OnReader(ts[u]);
      assert u in ts' && !OnReader(ts'[u]);
    } else if !OnReader(ts[t]) && r {
      var u :| u in ts && OnReader(ts[u]);
      assert u in ts' && OnReader(ts'[u]);
    }
  }

  lemma Stay(r: bool, w: bool, buffered: bool, buffered': bool, ts: Threads)
    requires Waiting(r, w, buffered, ts) && (buffered ==> buffered')
    ensures Waiting(r, w, buffered', ts)
  {
  }

  /** A writer that was not woken could not write now. */
  ghost predicate Patient(woken: bool, len: nat, ts: Threads) {
    forall t :: t in ts && !woken ==>
        && (ts[t].Writing? ==> NoRoom(|ts[t].data|, len))
        && (ts[t].PollingWrite? ==> len >= PIPE_BUF)
  }

  /** Nothing but the reader takes bytes out, and it wakes the writer. */
  lemma PatientKept(r: bool, w: bool, buffered: bool, woken: bool, woken': bool, len: nat, len': nat, ts: Threads)
    requires Waiting(r, w, buffered, ts) && Patient(woken, len, ts) && ((len' < len && w) || woken ==> woken')
    ensures Patient(woken', len', ts)
  {
  }

  /** The only thread that waits on the writer half goes on, and waits again or not. */
  lemma PatientAlone(r: bool, w: bool, buffered: bool, ts: Threads, t: int, woken: bool, len: nat)
    requires Waiting(r, w, buffered, ts) && t in ts && !OnReader(ts[t])
    requires ts[t].Writing? ==> woken || NoRoom(|ts[t].data|, len)
    requires ts[t].PollingWrite? ==> woken || len >= PIPE_BUF
    ensures Patient(woken, len, ts)
  {
  }

  lemma PatientLeft(r: bool, w: bool, buffered: bool, ts: Threads, t: int, woken: bool, len: nat)
    requires Waiting(r, w, buffered, ts) && t in ts && !OnReader(ts[t])
    ensures Patient(woken, len, ts - {t})
  {
    var ts' := ts - {t};
    forall u | u in ts'
      ensures OnReader(ts'[u])
    {
      assert u in ts;
    }
  }

  ghost predicate Running(p: Pipe, ts: Threads, log: seq<Event>)
    reads p, p.buffer
  {
    && p.Valid() && Waiting(p.readerBlocked, p.writerBlocked, p.buffer != null, ts) && Patient(p.writerWoken, p.len, ts)
    && Legal(log) && After(log) == Contents(p.Contents(), p.readerAlive, p.writerAlive)
  }

  /** A thread waits only while it has to, and two threads never wait for each other. */
  ghost predicate Live(p: Pipe, ts: Threads)
    reads p, p.buffer
  {
    && (forall t :: t in ts && OnReader(ts[t]) ==> p.readerWoken || (p.Contents() == [] && p.writerAlive))
    && (forall t :: t in ts && !OnReader(ts[t]) ==> p.writerWoken || (p.Contents() != [] && p.readerAlive))
    && (forall t, u :: t in ts && u in ts && OnReader(ts[t]) && !OnReader(ts[u]) ==> p.readerWoken || p.writerWoken)
    && (forall t :: t in ts && ts[t].Writing? ==> p.writerWoken || NoRoom(|ts[t].data|, |p.Contents()|))
    && (forall t :: t in ts && ts[t].PollingWrite? ==> p.writerWoken || |p.Contents()| == PIPE_BUF)
  }

  lemma RunningLive(p: Pipe, ts: Threads, log: seq<Event>)
    requires Running(p, ts, log)
    ensures Live(p, ts)
  {
  }

  /** A read that returned is added to the history. */
  lemma ReadLogged(p: Pipe, log: seq<Event>, was: seq<Byte>, length: nat, blocking: bool, r: ReadResult)
    requires Legal(log) && After(log) == Contents(was, p.readerAlive, p.writerAlive) && p.readerAlive
    requires Takes(was, length, r, p.Contents()) && !r.ReadBlocked?
    requires r.Data? <==> length == 0 || was != [] || !p.writerAlive
    requires !r.Data? ==> (r.ReadWouldBlock? <==> !blocking)
    ensures var log' := log + [Got(length, blocking, r)];
      Legal(log') && After(log') == Contents(p.Contents(), p.readerAlive, p.writerAlive)
  {
    hide Legal, After;
    if r.Data? { assert was[|r.bytes|..] == p.Contents() && was[..|r.bytes|] == r.bytes; }
    Happens(log, Got(length, blocking, r));
  }

  /** A write that returned is added to the history. */
  lemma WriteLogged(p: Pipe, log: seq<Event>, was: seq<Byte>, data: seq<Byte>, blocking: bool, mallocOk: bool,
      r: WriteResult)
    requires Legal(log) && After(log) == Contents(was, p.readerAlive, p.writerAlive) && p.writerAlive
    requires Puts(was, data, r, p.Contents()) && !r.WriteBlocked? && (Waits(r) ==> (r.WriteWouldBlock? <==> !blocking))
    requires (r.NoMemory? ==> data != [] && !mallocOk && was == []) && |p.Contents()| <= PIPE_BUF
    requires r.BrokenPipe? <==> data != [] && !r.NoMemory? && !p.readerAlive
    requires r.Wrote? <==> data == [] || (!r.NoMemory? && p.readerAlive && !NoRoom(|data|, |was|))
    ensures var log' := log + [Sent(data, blocking, mallocOk, r)];
      Legal(log') && After(log') == Contents(p.Contents(), p.readerAlive, p.writerAlive)
  {
    hide Legal, After;
    Happens(log, Sent(data, blocking, mallocOk, r));
  }

  lemma PollLogged(p: Pipe, log: seq<Event>, e: Event)
    requires Legal(log) && After(log) == Contents(p.Contents(), p.readerAlive, p.writerAlive)
    requires e.PolledRead? || e.PolledWrite?
    requires e.PolledRead? ==> p.readerAlive && (e.poll.Ready? <==> |p.Contents()| > 0 || !p.writerAlive)
    requires e.PolledWrite? ==> p.writerAlive && (e.poll.Ready? <==> |p.Contents()| < PIPE_BUF || !p.readerAlive)
    ensures Legal(log + [e]) && After(log + [e]) == Contents(p.Contents(), p.readerAlive, p.writerAlive)
  {
    hide Legal, After;
    Happens(log, e);
  }

  // ----- what a step does

  /** The threads that wait, the calls that returned so far, and the halves that were woken. */
  datatype Moment = Moment(ts: Threads, log: seq<Event>, readerWoken: bool, writerWoken: bool)

  ghost function Now(p: Pipe, ts: Threads, log: seq<Event>): Moment
    reads p
  {
    Moment(ts, log, p.readerWoken, p.writerWoken)
  }

  /** Thread `t` returns from its read, or waits in it, which it does only on an empty pipe with a writer. */
  ghost predicate Reads(m: Moment, t: int, length: nat, blocking: bool, m': Moment) {
    || (exists r :: m'.log == m.log + [Got(length, blocking, r)] && m'.ts == m.ts - {t})
    || (blocking && length > 0 && After(m.log).bytes == [] && After(m.log).writerAlive && m'.log == m.log &&
        m'.ts == m.ts[t := Reading(length)])
  }

  /** Thread `t` returns from its write, or waits in it, which it does only without room but with a reader. */
  ghost predicate Writes(m: Moment, t: int, data: seq<Byte>, blocking: bool, mallocOk: bool, m': Moment) {
    || (exists r :: m'.log == m.log + [Sent(data, blocking, mallocOk, r)] && m'.ts == m.ts - {t})
    || (blocking && NoRoom(|data|, |After(m.log).bytes|) && After(m.log).readerAlive && m'.log == m.log &&
        m'.ts == m.ts[t := Writing(data)])
  }

  /** Thread `t` polls, and waits if it is registered. */
  ghost predicate Polls(m: Moment, t: int, e: Event, f: Phase, m': Moment) {
    && (e.PolledRead? || e.PolledWrite?) && m'.log == m.log + [e]
    && m'.ts == if e.poll.Registered? then m.ts[t := f] else m.ts
  }

  ghost predicate Idles(m: Moment, reader: bool) { forall t :: t in m.ts ==> OnReader(m.ts[t]) != reader }

  /** What a step does to the threads and to the history. */
  ghost predicate Stepped(m: Moment, step: Step, m': Moment) {
    var s := After(m.log);
    match step
    case Read(t, length, blocking) =>
      if t in m.ts || !s.readerAlive then m' == m else Reads(m, t, length, blocking, m')
    case Write(t, data, blocking, mallocOk) =>
      if t in m.ts || !s.writerAlive then m' == m else Writes(m, t, data, blocking, mallocOk, m')
    case PollRead(t, _) =>
      if t in m.ts || !s.readerAlive then m' == m else exists r :: Polls(m, t, PolledRead(r), PollingRead, m')
    case PollWrite(t, _) =>
      if t in m.ts || !s.writerAlive then m' == m else exists r :: Polls(m, t, PolledWrite(r), PollingWrite, m')
    case Wake(t, blocking) =>
      if t !in m.ts || !(if OnReader(m.ts[t]) then m.readerWoken else m.writerWoken) then m' == m
      else (match m.ts[t]
            case Reading(length) => Reads(m, t, length, blocking, m')
            case Writing(data) => Writes(m, t, data, blocking, true, m')
            case _ => m'.ts == m.ts - {t} && m'.log == m.log)
    case Timeout(t) =>
      if t !in m.ts || m.ts[t].Reading? || m.ts[t].Writing? then m' == m
      else m'.ts == m.ts - {t} && m'.log == m.log
    case CloseReader =>
      if s.readerAlive && Idles(m, true) then m'.ts == m.ts && m'.log == m.log + [ReaderClosed] else m' == m
    case CloseWriter =>
      if s.writerAlive && Idles(m, false) then m'.ts == m.ts && m'.log == m.log + [WriterClosed] else m' == m
  }

  method DoRead(p: Pipe, ts: Threads, t: int, length: nat, blocking: bool, ghost log: seq<Event>)
      returns (ts': Threads, ghost log': seq<Event>)
    requires Running(p, ts, log) && t !in ts && p.readerAlive
    modifies p, p.buffer
    ensures Running(p, ts', log') && p.buffer == old(p.buffer)
    ensures Reads(old(Now(p, ts, log)), t, length, blocking, Now(p, ts', log'))
  {
    hide Waiting, Legal, After, Allowed;
    ts', log' := ts, log;
    var r := p.BeginRead(length, blocking);
    PatientKept(old(p.readerBlocked), p.writerBlocked, p.buffer != null, old(p.writerWoken), p.writerWoken, old(p.len),
        p.len, ts);
    if r.ReadBlocked? {
      Arrive(old(p.readerBlocked), p.writerBlocked, p.buffer != null, p.buffer != null, ts, t, Reading(length));
      ts' := ts[t := Reading(length)];
    } else {
      ReadLogged(p, log, old(p.Contents()), length, blocking, r);
      log' := log + [Got(length, blocking, r)];
      assert ts - {t} == ts;
    }
  }

  method DoWrite(p: Pipe, ts: Threads, t: int, data: seq<Byte>, blocking: bool, mallocOk: bool, ghost log: seq<Event>)
      returns (ts': Threads, ghost log': seq<Event>)
    requires Running(p, ts, log) && t !in ts && p.writerAlive
    modifies p, p.buffer
    ensures Running(p, ts', log') && (p.buffer == old(p.buffer) || fresh(p.buffer))
    ensures Writes(old(Now(p, ts, log)), t, data, blocking, mallocOk, Now(p, ts', log'))
  {
    hide Waiting, Legal, After, Allowed;
    ts', log' := ts, log;
    var r := p.BeginWrite(data, blocking, mallocOk);
    Stay(p.readerBlocked, old(p.writerBlocked), old(p.buffer) != null, p.buffer != null, ts);
    PatientKept(p.readerBlocked, old(p.writerBlocked), p.buffer != null, old(p.writerWoken), p.writerWoken, old(p.len),
        p.len, ts);
    if r.WriteBlocked? {
      Arrive(p.readerBlocked, old(p.writerBlocked), p.buffer != null, p.buffer != null, ts, t, Writing(data));
      ts' := ts[t := Writing(data)];
    } else {
      WriteLogged(p, log, old(p.Contents()), data, blocking, mallocOk, r);
      log' := log + [Sent(data, blocking, mallocOk, r)];
      assert ts - {t} == ts;
    }
  }

  method DoPoll(p: Pipe, ts: Threads, t: int, reader: bool, added: bool, ghost log: seq<Event>)
      returns (ts': Threads, ghost log': seq<Event>)
    requires Running(p, ts, log) && t !in ts && (if reader then p.readerAlive else p.writerAlive)
    modifies p
    ensures Running(p, ts', log') && p.buffer == old(p.buffer)
    ensures exists r :: Polls(old(Now(p, ts, log)), t, if reader then PolledRead(r) else PolledWrite(r),
        if reader then PollingRead else PollingWrite, Now(p, ts', log'))
  {
    hide Waiting, Legal, After, Allowed;
    ts' := ts;
    var r;
    if reader { r := p.PollRead(added); } else { r := p.PollWrite(added); }
    ghost var e := if reader then PolledRead(r) else PolledWrite(r);
    PollLogged(p, log, e);
    log' := log + [e];
    var f := if reader then PollingRead else PollingWrite;
    if r.Registered? {
      Arrive(old(p.readerBlocked), old(p.writerBlocked), p.buffer != null, p.buffer != null, ts, t, f);
      ts' := ts[t := f];
    }
    assert Polls(old(Now(p, ts, log)), t, if reader then PolledRead(r) else PolledWrite(r),
        if reader then PollingRead else PollingWrite, Now(p, ts', log'));
  }

  /** A poll ends, because of an event on this pipe or for another reason. */
  method DoPollEnd(p: Pipe, ts: Threads, t: int, event: bool, ghost log: seq<Event>) returns (ts': Threads)
    requires Running(p, ts, log) && t in ts && (ts[t].PollingRead? || ts[t].PollingWrite?)
    requires event ==> if ts[t].PollingRead? then p.readerWoken else p.writerWoken
    modifies p
    ensures Running(p, ts', log) && p.buffer == old(p.buffer) && ts' == ts - {t}
  {
    hide Waiting, Legal, After, Allowed;
    WaitingAt(p.readerBlocked, p.writerBlocked, p.buffer != null, ts, t);
    Leave(p.readerBlocked, p.writerBlocked, p.buffer != null, ts, t);
    ts' := ts - {t};
    if ts[t].PollingRead? {
      p.ReadReady(event);
    } else {
      p.WriteReady(event);
      PatientLeft(p.readerBlocked, old(p.writerBlocked), p.buffer != null, ts, t, p.writerWoken, p.len);
    }
  }

  /** A reader goes on once its half was woken. */
  method WakeReader(p: Pipe, ts: Threads, t: int, blocking: bool, ghost log: seq<Event>)
      returns (ts': Threads, ghost log': seq<Event>)
    requires Running(p, ts, log) && t in ts && ts[t].Reading? && p.readerWoken
    modifies p, p.buffer
    ensures Running(p, ts', log') && p.buffer == old(p.buffer)
    ensures Reads(old(Now(p, ts, log)), t, ts[t].length, blocking, Now(p, ts', log'))
  {
    hide Waiting, Legal, After, Allowed;
    WaitingAt(p.readerBlocked, p.writerBlocked, p.buffer != null, ts, t);
    Leave(p.readerBlocked, p.writerBlocked, p.buffer != null, ts, t);
    ts', log' := ts, log;
    var length := ts[t].length;
    var r := p.ResumeRead(length, blocking);
    PatientKept(old(p.readerBlocked), p.writerBlocked, p.buffer != null, old(p.writerWoken), p.writerWoken, old(p.len),
        p.len, ts);
    if r.ReadBlocked? {
      assert ts == ts[t := Reading(length)];
    } else {
      ts' := ts - {t};
      ReadLogged(p, log, old(p.Contents()), length, blocking, r);
      log' := log + [Got(length, blocking, r)];
    }
  }

  /** A writer goes on once its half was woken. */
  method WakeWriter(p: Pipe, ts: Threads, t: int, blocking: bool, ghost log: seq<Event>)
      returns (ts': Threads, ghost log': seq<Event>)
    requires Running(p, ts, log) && t in ts && ts[t].Writing? && p.writerWoken
    modifies p, p.buffer
    ensures Running(p, ts', log') && p.buffer == old(p.buffer)
    ensures Writes(old(Now(p, ts, log)), t, ts[t].data, blocking, true, Now(p, ts', log'))
  {
    hide Waiting, Legal, After, Allowed;
    WaitingAt(p.readerBlocked, p.writerBlocked, p.buffer != null, ts, t);
    Leave(p.readerBlocked, p.writerBlocked, p.buffer != null, ts, t);
    ts', log' := ts, log;
    var data := ts[t].data;
    var r := p.ResumeWrite(data, blocking);
    if r.WriteBlocked? {
      PatientAlone(p.readerBlocked, p.writerBlocked, p.buffer != null, ts, t, p.writerWoken, p.len);
      assert ts == ts[t := Writing(data)];
    } else {
      ts' := ts - {t};
      PatientLeft(p.readerBlocked, old(p.writerBlocked), p.buffer != null, ts, t, p.writerWoken, p.len);
      WriteLogged(p, log, old(p.Contents()), data, blocking, true, r);
      log' := log + [Sent(data, blocking, true, r)];
    }
  }

  lemma WaitingAt(r: bool, w: bool, buffered: bool, ts: Threads, t: int)
    requires Waiting(r, w, buffered, ts) && t in ts
    ensures if OnReader(ts[t]) then r else w
    ensures (ts[t].Reading? ==> ts[t].length > 0) && (ts[t].Writing? ==> ts[t].data != [] && buffered)
  {
  }

  /** A half is in use exactly if a thread waits on it. */
  lemma InUse(r: bool, w: bool, buffered: bool, m: Moment)
    requires Waiting(r, w, buffered, m.ts)
    ensures (r <==> !Idles(m, true)) && (w <==> !Idles(m, false))
  {
  }

  method Do(p: Pipe, ts: Threads, step: Step, ghost log: seq<Event>) returns (ts': Threads, ghost log': seq<Event>)
    requires Running(p, ts, log)
    modifies p, p.buffer
    ensures Running(p, ts', log') && (p.buffer == old(p.buffer) || fresh(p.buffer))
    ensures Stepped(old(Now(p, ts, log)), step, Now(p, ts', log'))
  {
    hide Waiting, Legal, After, Allowed, Reads, Writes, Polls, Idles;
    ts', log' := ts, log;
    InUse(p.readerBlocked, p.writerBlocked, p.buffer != null, Now(p, ts, log));
    match step
    case Read(t, length, blocking) =>
      if t !in ts && p.readerAlive { ts', log' := DoRead(p, ts, t, length, blocking, log); }
    case Write(t, data, blocking, mallocOk) =>
      if t !in ts && p.writerAlive { ts', log' := DoWrite(p, ts, t, data, blocking, mallocOk, log); }
    case PollRead(t, added) =>
      if t !in ts && p.readerAlive { ts', log' := DoPoll(p, ts, t, true, added, log); }
    case PollWrite(t, added) =>
      if t !in ts && p.writerAlive { ts', log' := DoPoll(p, ts, t, false, added, log); }
    case Wake(t, blocking) =>
      if t in ts && (if OnReader(ts[t]) then p.readerWoken else p.writerWoken) {
        match ts[t]
        case Reading(_) => ts', log' := WakeReader(p, ts, t, blocking, log);
        case Writing(_) => ts', log' := WakeWriter(p, ts, t, blocking, log);
        case _ => ts' := DoPollEnd(p, ts, t, true, log);
      }
    case Timeout(t) =>
      if t in ts && (ts[t].PollingRead? || ts[t].PollingWrite?) { ts' := DoPollEnd(p, ts, t, false, log); }
    case CloseReader =>
      if p.readerAlive && !p.readerBlocked { log' := DoClose(p, ts, true, log); }
    case CloseWriter =>
      if p.writerAlive && !p.writerBlocked { log' := DoClose(p, ts, false, log); }
  }

  method DoClose(p: Pipe, ts: Threads, reader: bool, ghost log: seq<Event>) returns (ghost log': seq<Event>)
    requires Running(p, ts, log)
    requires if reader then p.readerAlive && !p.readerBlocked else p.writerAlive && !p.writerBlocked
    modifies p
    ensures Running(p, ts, log') && p.buffer == old(p.buffer)
    ensures log' == log + [if reader then ReaderClosed else WriterClosed]
  {
    hide Waiting, Legal, After;
    ghost var e := if reader then ReaderClosed else WriterClosed;
    Happens(log, e);
    log' := log + [e];
    var gone;
    if reader { gone := p.FreeReader(); } else { gone := p.FreeWriter(); }
  }

  /** Whatever the threads do, in whatever order: each call that returned had the result that a pipe with
      the contents of that moment should give, what is left is what the pipe should hold, and no thread
      waits in vain.  So what was read and what is left is what the writes delivered, and after an end of
      file there is no writer and nothing left to read. */
  method Run(schedule: seq<Step>) returns (p: Pipe, ts: Threads, ghost log: seq<Event>, ghost trace: seq<Moment>)
    ensures p.Valid() && Live(p, ts) && Legal(log)
    ensures |trace| == |schedule| + 1 && trace[0] == Moment(map[], [], false, false)
    ensures forall i :: 0 <= i < |schedule| ==> Stepped(trace[i], schedule[i], trace[i + 1])
    ensures trace[|schedule|] == Now(p, ts, log)
    ensures After(log) == Contents(p.Contents(), p.readerAlive, p.writerAlive)
    ensures Received(log) + p.Contents() == Delivered(log) && |p.Contents()| <= PIPE_BUF
    ensures (exists i :: 0 <= i < |log| && Ended(log[i])) ==> !p.writerAlive && Received(log) == Delivered(log)
  {
    hide Legal, Allowed, Stepped;
    p := new Pipe();
    ts, log := map[], [];
    assert Running(p, ts, log) by { Nothing(); }
    trace := [Now(p, ts, log)];
    for i := 0 to |schedule|
      invariant fresh(p) && (p.buffer != null ==> fresh(p.buffer)) && Running(p, ts, log)
      invariant |trace| == i + 1 && trace[0] == Moment(map[], [], false, false) && trace[i] == Now(p, ts, log)
      invariant forall j :: 0 <= j < i ==> Stepped(trace[j], schedule[j], trace[j + 1])
    {
      ts, log := Do(p, ts, schedule[i], log);
      trace := trace + [Now(p, ts, log)];
    }
    RunningLive(p, ts, log);
    Conserved(log);
    if i: nat :| i < |log| && Ended(log[i]) {
      EndOfFile(log, i);
      assert Received(log) + [] == Received(log);
    }
  }

  lemma Nothing()
    ensures Legal([])
  {
  }
}
