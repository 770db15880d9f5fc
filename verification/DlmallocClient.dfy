/** Whole runs of dlmalloc within its segment. */
module DlmallocClient {
  import opened Regions
  import opened Segment
  import opened FreeBins
  import opened BestFit
  import opened Dlmalloc
  import Bits

  /** The chunks a program holds, with their sizes. */
  type View = map<int, int>

  datatype Op = Alloc(bytes: nat) | Dispose(chunk: int) | Resize(chunk: int, bytes: nat)

  ghost predicate Allocates(v: View, v': View, p: int, bytes: int) {
    p !in v && p % 16 == 8 && p in v' && JustHolds(v'[p], bytes) && v' == v[p := v'[p]]
  }

  ghost predicate Resizes(v: View, v': View, p: int, bytes: int) {
    p in v && p in v' && JustHolds(v'[p], bytes) && v' == v[p := v'[p]]
  }

  /** The subdivision of the segment, and which of its chunks is `top`. */
  datatype Snapshot = Snapshot(regs: Regions, top: int)

  /** How one operation may change what the program holds.  A request fails, with nothing changed, only
      when no free chunk holds it or it is beyond the largest; a chunk grows in place exactly when there
      is room; and what is given is just large enough.  Operations on chunks that the program does not
      hold are not made. */
  ghost predicate Step(s: Snapshot, op: Op, s': Snapshot) {
    var v, v' := Live(s.regs), Live(s'.regs);
    match op
    case Alloc(bytes) =>
      if bytes >= MAX_REQUEST then s' == s
      else (s' == s && NothingHolds(s.regs, s.top, bytes)) || exists p :: Allocates(v, v', p, bytes)
    case Dispose(p) => v' == v - {p}
    case Resize(p, bytes) =>
      if p !in v || bytes >= MAX_REQUEST || !RoomForBytes(s.regs, s.top, p, bytes) then s' == s
      else Resizes(v, v', p, bytes)
  }

  method Do(m: Mstate, held: set<int>, op: Op) returns (held': set<int>)
    requires m.Valid() && held == Live(m.regs).Keys
    modifies m
    ensures m.Valid() && held' == Live(m.regs).Keys && Step(Snapshot(old(m.regs), old(m.top)), op,
      Snapshot(m.regs, m.top))
  {
    hide SegOk, BinnedOk, Live, UserKept, Resized, NothingHolds, RoomFor, RoomForBytes, JustHolds, RequestSize, Served;
    held' := held;
    match op
    case Alloc(bytes) =>
      if bytes < Bits.WORD {
        var mem := m.Dlmalloc(bytes);
        if mem != 0 {
          assert Allocates(Live(old(m.regs)), Live(m.regs), mem - 8, bytes);
          held' := held + {mem - 8};
        }
      }
    case Dispose(p) =>
      if p in held && p != -8 {
        m.Dlfree(p + 8);
      } else {
        NotBelow(m, p);
      }
      held' := held - {p};
    case Resize(p, bytes) =>
      if p in held && bytes < MAX_REQUEST {
        RequestRange(bytes);
        HeldUsed(m, p);
        RoomForExact(m.chunk, m.regs, m.lo, m.hi, m.Held({}), p, bytes);
        var q := m.TryReallocChunk(p, RequestSize(bytes));
        if q != 0 { JustResized(m, p, bytes); }
      }
  }

  lemma NotBelow(m: Mstate, p: int)
    requires m.Valid() && (p !in Live(m.regs) || p == -8)
    ensures Live(m.regs) - {p} == Live(m.regs)
  {
  }

  lemma JustResized(m: Mstate, p: int, bytes: nat)
    requires m.Valid() && p in Live(m.regs) && bytes < MAX_REQUEST
    requires RequestSize(bytes) <= Live(m.regs)[p] < RequestSize(bytes) + MIN_REGION
    ensures JustHolds(Live(m.regs)[p], bytes)
  {
    hide SegOk, BinnedOk, RequestSize, JustHolds;
    SizeOf(m.chunk, m.regs, m.lo, m.hi, m.Held({}), p);
    RequestExact(bytes, m.regs[p].size);
  }

  lemma HeldUsed(m: Mstate, p: int)
    requires p in Live(m.regs)
    ensures p in m.regs && m.regs[p].kind.Used?
  {
  }

  /** Every run of every program: from the fresh allocator on, what the program holds changes by its
      own operations only, and the allocator's invariant holds throughout. */
  method Run(heapBase: int, heapEnd: int, script: seq<Op>) returns (m: Mstate, ghost trace: seq<Snapshot>)
    requires MIN_REGION < heapBase && heapBase + MIN_REGION + TOP_FOOT_SIZE + 16 < heapEnd <= Bits.WORD
    requires heapEnd % 16 == 0
    ensures m.Valid() && |trace| == |script| + 1 && Live(trace[0].regs) == map[] &&
      trace[|script|] == Snapshot(m.regs, m.top)
    ensures forall i :: 0 <= i < |script| ==> Step(trace[i], script[i], trace[i + 1])
  {
    hide SegOk, Live, UserKept, Step;
    m := new Mstate(heapBase, heapEnd);
    trace := [Snapshot(m.regs, m.top)];
    var held := {};
    for i := 0 to |script|
      invariant fresh(m) && m.Valid() && held == Live(m.regs).Keys && |trace| == i + 1
      invariant Live(trace[0].regs) == map[] && trace[i] == Snapshot(m.regs, m.top)
      invariant forall j :: 0 <= j < i ==> Step(trace[j], script[j], trace[j + 1])
    {
      held := Do(m, held, script[i]);
      trace := trace + [Snapshot(m.regs, m.top)];
    }
  }
}
