/** Whole runs of emmalloc: however a program allocates, frees, resizes and writes, it sees a map from
    live pointers to contents, in which nothing changes but what the program itself changed. */
module EmmallocClient {
  import opened Bits
  import opened FreeLists
  import opened Regions
  import opened Tags
  import opened HeapInvariant
  import opened Emmalloc

  /** The program's view: every pointer it holds with the bytes it asked for. */
  type View = map<int, seq<int>>

  datatype Op =
    | Alloc(alignment: nat, size: nat)
    | Dispose(p: int)
    | Resize(p: int, size: nat)
    | Write(p: int, offset: nat, value: int)
    | OtherSbrk(increment: int)

  /** A new allocation: an aligned pointer that was not in use, with room for the request. */
  ghost predicate Allocates(v: View, v': View, p: int, c: seq<int>, alignment: nat, size: nat) {
    p !in v && |c| == size && alignment > 0 && p % alignment == 0 && v' == v[p := c]
  }

  /** A resized allocation: the contents up to the smaller size are kept, wherever it ends up. */
  ghost predicate Resizes(v: View, v': View, p: int, q: int, c: seq<int>, size: nat) {
    && p in v && (q == p || q !in v) && |c| == size && v' == (v - {p})[q := c]
    && (forall i :: 0 <= i < |c| && i < |v[p]| ==> c[i] == v[p][i])
  }

  /** What the program holds, the subdivision of the heap, and how often the system has refused to
      extend the memory. */
  datatype State = State(view: View, regs: Regions, refusals: nat)

  /** The system has just refused, and no free region was in a list whose regions all hold the request. */
  ghost predicate Refused(s: State, s': State, alignment: nat, size: nat) {
    s'.refusals > s.refusals && NoneAmple(s.regs, alignment, Heap.ValidateSize(size))
  }

  /** How one operation that ends as it should may change the view.  An invalid request leaves it alone,
      and so does one after a refusal; every other one succeeds.  An allocation that can be resized where
      it is stays there, and any other one moves.  Operations on pointers that the program does not hold
      are not made. */
  ghost predicate Step(s: State, op: Op, s': State) {
    var v, v' := s.view, s'.view;
    match op
    case Alloc(alignment, size) =>
      var al := Heap.ValidateAlignment(alignment);
      if !PowerOf2(alignment) || size > Heap.MAX_ALLOC_SIZE then v' == v
      else (v' == v && Refused(s, s', al, size)) || exists p, c :: Allocates(v, v', p, c, al, size)
    case Dispose(p) => v' == v - {p}
    case Resize(p, size) =>
      if p !in v then v' == v
      else if size == 0 then v' == v - {p}
      else if size > Heap.MAX_ALLOC_SIZE then v' == v
      else if FitsInPlace(s.regs, p - 4, Heap.ValidateSize(size) + HEADER) then
        exists c :: Resizes(v, v', p, p, c, size)
      else
        || (v' == v && Refused(s, s', Heap.MALLOC_ALIGNMENT, size))
        || (v' == v && Heap.ValidateSize(size) > Heap.MAX_ALLOC_SIZE)
        || exists q, c :: q != p && Resizes(v, v', p, q, c, size)
    case Write(p, offset, value) => v' == if p in v && offset < |v[p]| then v[p := v[p][offset := value]] else v
    case OtherSbrk(_) => v' == v
  }

  /** Every region that the program holds a pointer to is as large as the program thinks, and no larger
      request was ever admitted. */
  ghost predicate Roomed(s: State) {
    forall p :: p in s.view ==>
        && p - 4 in s.regs && NextOf(s.regs, p - 4) in s.regs && |s.view[p]| <= Heap.MAX_ALLOC_SIZE
        && Heap.ValidateSize(|s.view[p]|) + HEADER <= s.regs[p - 4].size <= FreeTo(s.regs, p - 4) - (p - 4)
  }

  /** The operation asks for no more than there is. */
  predicate Shrinks(v: View, op: Op) { op.Resize? && op.p in v && 0 < op.size <= |v[op.p]| }

  /** Shrinking an allocation never fails and never moves it, and the front of it is kept. */
  lemma ShrinkStays(s: State, op: Op, s': State)
    requires Roomed(s) && Shrinks(s.view, op) && Step(s, op, s')
    ensures s'.view == s.view[op.p := s.view[op.p][..op.size]]
  {
    hide PowerOf2;
    var v, p := s.view, op.p;
    ValidateMono(op.size, |v[p]|);
    var c :| Resizes(v, s'.view, p, p, c, op.size);
    assert c == v[p][..op.size];
    assert (v - {p})[p := c] == v[p := c];
  }

  lemma ValidateMono(a: nat, b: nat)
    requires a <= b
    ensures Heap.ValidateSize(a) <= Heap.ValidateSize(b)
  {
    hide Heap.ValidateSize;
    Heap.ValidatedTwice(b);
    Heap.ValidateSizeLeast(a, Heap.ValidateSize(b));
  }

  /** The heap holds exactly the view: every pointer is a live allocation with these contents, aligned
      and large enough, and there is no other live allocation. */
  ghost predicate Holds(mem: Memory, regs: Regions, v: View) {
    && (forall p :: p in v ==> HoldsAt(mem, regs, p, v[p]))
    && (forall a :: a in regs && regs[a].kind.Used? ==> a + 4 in v)
  }

  ghost predicate HoldsAt(mem: Memory, regs: Regions, p: int, c: seq<int>) {
    && p > 4 && p % 16 == 0 && p - 4 in regs && regs[p - 4].kind.Used? && |c| + HEADER <= regs[p - 4].size
    && p + |c| <= |mem| && mem[p..p + |c|] == c
  }

  /** The pointers a program holds never overlap. */
  lemma Disjointness(h: Heap, v: View, p: int, q: int)
    requires h.Valid() && Holds(h.mem, h.regs, v) && p in v && q in v && p != q
    ensures p + |v[p]| <= q || q + |v[q]| <= p
  {
    assert HoldsAt(h.mem, h.regs, p, v[p]) && HoldsAt(h.mem, h.regs, q, v[q]);
    UsedApart(h.l, |h.mem|, h.regs, p - 4, q - 4);
  }

  /** A step that keeps the other allocations keeps what the view says about them. */
  lemma HoldsKept(mem: Memory, regs: Regions, mem': Memory, regs': Regions, gone: set<int>, added: set<int>, v: View,
      p: int)
    requires ClientSafe(mem, regs, mem', regs', gone, added) && p in v && HoldsAt(mem, regs, p, v[p]) && p - 4 !in gone
    ensures HoldsAt(mem', regs', p, v[p])
  {
    var c := v[p];
    KeptOf(mem, regs, mem', regs', gone, added, p - 4);
    assert mem'[p..p + |c|] == mem[p..p + |c|];
  }

  /** The view after the allocations `gone` went and the pointer `q` came, if `q` is not 0. */
  lemma HoldsNext(mem: Memory, regs: Regions, mem': Memory, regs': Regions, gone: set<int>, v: View, w: View, q: int,
      c: seq<int>)
    requires Holds(mem, regs, v) && ClientSafe(mem, regs, mem', regs', gone, if q == 0 then {} else {q - 4})
    requires forall p :: p in w <==> p in v && p - 4 !in gone
    requires forall p :: p in w ==> w[p] == v[p]
    requires q != 0 ==> HoldsAt(mem', regs', q, c)
    ensures Holds(mem', regs', if q == 0 then w else w[q := c])
  {
    var added := if q == 0 then {} else {q - 4};
    var w' := if q == 0 then w else w[q := c];
    forall p | p in w'
      ensures HoldsAt(mem', regs', p, w'[p])
    {
      if p != q || q == 0 { HoldsKept(mem, regs, mem', regs', gone, added, v, p); }
    }
  }

  /** What it takes for an operation to end otherwise: a test that a sum which wraps round passes, or an
      amount of memory that `sbrk` does not take. */
  ghost predicate Doomed(h: Heap, op: Op, fate: Fate)
    reads h
  {
    match op
    case Alloc(alignment, size) => h.Doomed(fate, Heap.ValidateAlignment(alignment), Heap.ValidateSize(size))
    case Resize(p, size) =>
      || h.Doomed(fate, Heap.MALLOC_ALIGNMENT, Heap.ValidateSize(size))
      || (fate.Wrapped? && ResizeWraps(h.regs, p - 4, Heap.ValidateSize(size) + HEADER))
    case OtherSbrk(increment) => fate.Aborts? ==> increment < 0 || increment % PAGE_SIZE != 0
    case _ => fate.Sound?
  }

  /** Requests for which even with all the memory that the module may have, there is room below 2^32. */
  ghost predicate Modest(h: Heap, op: Op) {
    match op
    case Alloc(alignment, size) => Small(h.l.limit, alignment, size)
    case Resize(_, size) => Small(h.l.limit, Heap.MALLOC_ALIGNMENT, size)
    case OtherSbrk(increment) => 0 <= increment && increment % PAGE_SIZE == 0
    case _ => true
  }

  ghost predicate Small(limit: int, alignment: nat, size: nat) {
    && limit + Heap.ValidateAlignment(alignment) + Heap.ValidateSize(size) <= WORD
    && Heap.RoundUpToPage(Heap.ValidateSize(size) + 3 * MIN_REGION) < HALF
  }

  lemma SmallInRange(h: Heap, alignment: nat, size: nat)
    requires h.Valid() && Small(h.l.limit, alignment, size)
    ensures h.InRange(alignment, size)
  {
    hide Tagged, Rings, Masked, Roots, Shape, Heap.ValidateSize, Heap.ValidateAlignment, Heap.RoundUpToPage;
    InLimit(h.l, |h.mem|, h.regs);
  }

  method DoAlloc(h: Heap, v: View, alignment: nat, size: nat) returns (v': View, fate: Fate)
    requires h.Valid() && Holds(h.mem, h.regs, v)
    modifies h
    ensures h.Valid() && Holds(h.mem, h.regs, v') && Doomed(h, Alloc(alignment, size), fate)
    ensures if !fate.Sound? then v' == v else Step(State(v, old(h.regs), old(h.refusals)), Alloc(alignment, size),
      State(v', h.regs, h.refusals))
    ensures Small(h.l.limit, alignment, size) ==> fate.Sound?
  {
    hide Shape, Tagged, Rings, Masked, Roots, ClientSafe, Holds, HoldsAt, PowerOf2, Exhausted, Small, Heap.Doomed,
      Heap.InRange;
    ghost var m0, r0 := h.mem, h.regs;
    if Small(h.l.limit, alignment, size) { SmallInRange(h, alignment, size); }
    var p;
    p, fate := h.AllocateMemory(alignment, size);
    if p == 0 {
      HoldsNext(m0, r0, h.mem, h.regs, {}, v, v, 0, []);
      v' := v;
      return;
    }
    NewContents(h.l, h.mem, h.regs, p, alignment, size);
    var c := h.mem[p..p + size];
    HoldsNext(m0, r0, h.mem, h.regs, {}, v, v, p, c);
    NotHeld(m0, r0, v, p);
    v' := v[p := c];
    assert Allocates(v, v', p, c, Heap.ValidateAlignment(alignment), size);
  }

  lemma NewContents(l: Layout, mem: Memory, regs: Regions, p: int, alignment: nat, size: nat)
    requires Shape(l, |mem|, regs) && PowerOf2(alignment) && p > 4 && p - 4 in regs && regs[p - 4].kind.Used?
    requires p % Heap.ValidateAlignment(alignment) == 0 && Heap.ValidateSize(size) + HEADER <= regs[p - 4].size
    ensures p + size <= |mem| && HoldsAt(mem, regs, p, mem[p..p + size])
  {
    hide HasNext, HasPrev, Coalesced, Aligned, Disjoint, PowerOf2, AlignUp;
    Heap.Validated(alignment, size);
    Mod16Trans(p, Heap.ValidateAlignment(alignment));
  }

  lemma NotHeld(mem: Memory, regs: Regions, v: View, p: int)
    requires Holds(mem, regs, v) && (p - 4 in regs ==> !regs[p - 4].kind.Used?)
    ensures p !in v
  {
  }

  lemma HeldAt(mem: Memory, regs: Regions, v: View, p: int)
    requires Holds(mem, regs, v) && p in v
    ensures HoldsAt(mem, regs, p, v[p])
  {
  }

  method DoDispose(h: Heap, v: View, p: int) returns (v': View)
    requires h.Valid() && Holds(h.mem, h.regs, v)
    modifies h
    ensures h.Valid() && Holds(h.mem, h.regs, v')
    ensures Step(State(v, old(h.regs), old(h.refusals)), Dispose(p),
      State(v', h.regs, h.refusals))
  {
    hide HeapOk, ClientSafe, Holds, CanFree, Freed;
    if p !in v {
      assert v == v - {p};
      return v;
    }
    HeldAt(h.mem, h.regs, v, p);
    ghost var m0, r0 := h.mem, h.regs;
    h.Free(p);
    v' := v - {p};
    HoldsNext(m0, r0, h.mem, h.regs, {p - 4}, v, v', 0, []);
  }

  method DoWrite(h: Heap, v: View, p: int, offset: nat, value: int) returns (v': View)
    requires h.Valid() && Holds(h.mem, h.regs, v)
    modifies h
    ensures h.Valid() && Holds(h.mem, h.regs, v')
    ensures Step(State(v, old(h.regs), old(h.refusals)), Write(p, offset, value),
      State(v', h.regs, h.refusals))
  {
    hide HeapOk, ClientSafe, Holds;
    if p !in v || offset >= |v[p]| { return v; }
    HeldAt(h.mem, h.regs, v, p);
    ghost var m0, r0 := h.mem, h.regs;
    h.Store(p, offset, value);
    var c := v[p][offset := value];
    assert h.mem[p..p + |c|] == c;
    HoldsNext(m0, r0, h.mem, h.regs, {p - 4}, v, v - {p}, p, c);
    v' := v[p := c];
    assert v' == (v - {p})[p := c];
  }

  method DoResize(h: Heap, v: View, p: int, size: nat) returns (v': View, fate: Fate)
    requires h.Valid() && Holds(h.mem, h.regs, v)
    modifies h
    ensures h.Valid() && Holds(h.mem, h.regs, v') && Doomed(h, Resize(p, size), fate)
    ensures if !fate.Sound? then v' == v else Step(State(v, old(h.regs), old(h.refusals)), Resize(p, size),
      State(v', h.regs, h.refusals))
    ensures Small(h.l.limit, Heap.MALLOC_ALIGNMENT, size) ==> fate.Sound?
  {
    hide Shape, Tagged, Rings, Masked, Roots, ClientSafe, Holds, Copied, PowerOf2, Small, Heap.InRange, ResizeWraps,
      HasFalseFit;
    if p !in v { return v, Sound; }
    if Small(h.l.limit, Heap.MALLOC_ALIGNMENT, size) { SmallInRange(h, Heap.MALLOC_ALIGNMENT, size); }
    HeldAt(h.mem, h.regs, v, p);
    ghost var m0, r0 := h.mem, h.regs;
    PowerOf16();
    var q;
    q, fate := h.Realloc(p, 16, size);
    if size == 0 {
      v' := v - {p};
      HoldsNext(m0, r0, h.mem, h.regs, {p - 4}, v, v', 0, []);
      return;
    }
    if q == 0 {
      HoldsNext(m0, r0, h.mem, h.regs, {}, v, v, 0, []);
      v' := v;
      return;
    }
    ResizedContents(h.l, m0, h.mem, h.regs, p, v[p], r0[p - 4].size, q, size);
    var c := h.mem[q..q + size];
    v' := (v - {p})[q := c];
    HoldsNext(m0, r0, h.mem, h.regs, {p - 4}, v, v - {p}, q, c);
    if q != p { NotHeld(m0, r0, v, q); }
    assert Resizes(v, v', p, q, c, size);
  }

  lemma ResizedContents(l: Layout, mem: Memory, mem': Memory, regs': Regions, p: int, c: seq<int>, room: int, q: int,
      size: nat)
    requires Shape(l, |mem'|, regs') && q - 4 in regs' && regs'[q - 4].kind.Used? &&
      size + HEADER <= regs'[q - 4].size && q % 16 == 0
    requires 0 <= p && p + |c| <= |mem| && mem[p..p + |c|] == c && |c| + HEADER <= room
    requires Copied(mem, p, mem', q, Heap.SmallerOf(room - HEADER, size))
    ensures q + size <= |mem'| && HoldsAt(mem', regs', q, mem'[q..q + size])
    ensures forall i :: 0 <= i < size && i < |c| ==> mem'[q..q + size][i] == c[i]
  {
    hide HasNext, HasPrev, Coalesced, Aligned, Disjoint;
    forall i | 0 <= i < size && i < |c|
      ensures mem'[q..q + size][i] == c[i]
    {
      var w := q + i;
      assert mem'[w] == mem[p + (w - q)];
      assert c[i] == mem[p..p + |c|][i];
    }
  }

  lemma PowerOf16()
    ensures PowerOf2(16)
  {
    assert PowerOf2(1) && PowerOf2(2) && PowerOf2(4) && PowerOf2(8);
  }

  method Do(h: Heap, v: View, op: Op) returns (v': View, fate: Fate)
    requires h.Valid() && Holds(h.mem, h.regs, v)
    modifies h
    ensures h.Valid() && Holds(h.mem, h.regs, v') && Doomed(h, op, fate)
    ensures if !fate.Sound? then v' == v else Step(State(v, old(h.regs), old(h.refusals)), op,
      State(v', h.regs, h.refusals))
    ensures Modest(h, op) ==> fate.Sound?
  {
    hide HeapOk, Holds, ClientSafe, Small, Heap.Doomed, ResizeWraps;
    fate := Sound;
    match op
    case Alloc(alignment, size) => v', fate := DoAlloc(h, v, alignment, size);
    case Dispose(p) => v' := DoDispose(h, v, p);
    case Resize(p, size) => v', fate := DoResize(h, v, p, size);
    case Write(p, offset, value) => v' := DoWrite(h, v, p, offset, value);
    case OtherSbrk(increment) =>
      ghost var m0, r0 := h.mem, h.regs;
      fate := h.OtherSbrk(increment);
      HoldsNext(m0, r0, h.mem, h.regs, {}, v, v, 0, []);
      v' := v;
  }

  lemma HoldsNothing(mem: Memory, regs: Regions)
    requires regs == map[]
    ensures Holds(mem, regs, map[])
  {
  }

  /** The heap gives every pointer the room it needs. */
  lemma HeldRoom(h: Heap, v: View)
    requires h.Valid() && Holds(h.mem, h.regs, v)
    ensures Roomed(State(v, h.regs, h.refusals))
  {
    hide Tagged, Rings, Masked, Roots, Shape, Holds, Heap.ValidateSize;
    forall p | p in v
      ensures p - 4 in h.regs && NextOf(h.regs, p - 4) in h.regs && |v[p]| <= Heap.MAX_ALLOC_SIZE
      ensures Heap.ValidateSize(|v[p]|) + HEADER <= h.regs[p - 4].size <= FreeTo(h.regs, p - 4) - (p - 4)
    {
      HeldAt(h.mem, h.regs, v, p);
      ResizeSpan(h.l, |h.mem|, h.regs, p - 4);
      UsedSize(h.l, |h.mem|, h.regs, p - 4);
      Heap.ValidateSizeLeast(|v[p]|, h.regs[p - 4].size - HEADER);
    }
  }

  /** Every run of every program: the heap goes through a sequence of states, each of which follows from
      the one before by the operation that was made, and holds the last view.  What the program shrinks
      stays where it is.  The run comes to its end unless an operation meets one of the conditions of
      `Doomed`, which no modest one does. */
  method Run(h: Heap, script: seq<Op>) returns (ghost trace: seq<State>, v: View, made: nat, fate: Fate)
    requires h.Valid() && h.regs == map[]
    modifies h
    ensures h.Valid() && Holds(h.mem, h.regs, v) && made <= |script|
    ensures |trace| == made + 1 && trace[0] == State(map[], map[], old(h.refusals)) && trace[made].view == v
    ensures forall i :: 0 <= i < made ==> Step(trace[i], script[i], trace[i + 1])
    ensures forall i :: 0 <= i < made && Shrinks(trace[i].view, script[i]) ==>
      trace[i + 1].view == trace[i].view[script[i].p := trace[i].view[script[i].p][..script[i].size]]
    ensures fate.Sound? ==> made == |script| && trace[made] == State(v, h.regs, h.refusals)
    ensures !fate.Sound? ==> made < |script| && !Modest(h, script[made]) && Doomed(h, script[made], fate)
  {
    hide HeapOk, Holds, Step, Modest, Doomed, Roomed;
    v, trace := map[], [State(map[], h.regs, h.refusals)];
    made, fate := 0, Sound;
    HoldsNothing(h.mem, h.regs);
    while made < |script|
      invariant h.Valid() && Holds(h.mem, h.regs, v) && made <= |script| && fate.Sound?
      invariant |trace| == made + 1 && trace[0] == State(map[], map[], old(h.refusals))
      invariant trace[made] == State(v, h.regs, h.refusals)
      invariant forall j :: 0 <= j < made ==> Step(trace[j], script[j], trace[j + 1])
      invariant forall i :: 0 <= i < made && Shrinks(trace[i].view, script[i]) ==>
        trace[i + 1].view == trace[i].view[script[i].p := trace[i].view[script[i].p][..script[i].size]]
    {
      HeldRoom(h, v);
      v, fate := Do(h, v, script[made]);
      if !fate.Sound? { return; }
      ghost var next := State(v, h.regs, h.refusals);
      if Shrinks(trace[made].view, script[made]) { ShrinkStays(trace[made], script[made], next); }
      trace := trace + [next];
      made := made + 1;
    }
  }
}
