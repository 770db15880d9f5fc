/** What every state of an emmalloc heap satisfies, and how edits of the subdivision carry over. */
module HeapInvariant {
  import opened Bits
  import opened Buckets
  import opened FreeLists
  import opened Regions
  import opened Tags

  const PAGE_SIZE: int := 0x10000

  /** Where the linker put things: the static array of list sentinels, the initial heap, and the
      most memory that the module may ever have. */
  datatype Layout = Layout(buckets: int, heapBase: int, heapEnd: int, limit: int)

  ghost predicate LayoutOk(l: Layout) {
    && 0 < l.buckets && l.buckets + NODE_SIZE * NUM_RINGS <= l.heapBase <= l.heapEnd <= l.limit < WORD
    && l.buckets % 4 == 0 && l.heapBase % 4 == 0 && l.heapEnd % 4 == 0 && l.limit % 4 == 0
  }

  /** A memory block: its root region and the address one past its end sentinel. */
  datatype Block = Block(root: int, end: int)

  /** The list for a free region of `size` bytes. */
  function Slot(size: int): (i: int)
    ensures 0 <= i < NUM_RINGS
  {
    if MIN_REGION <= size < WORD then
      BucketRange(size - HEADER, 0);
      Bucket(size - HEADER)
    else 0
  }

  lemma SlotIsBucket(size: int)
    requires MIN_REGION <= size < WORD
    ensures Slot(size) == Bucket(size - HEADER)
  {
  }

  /** Every free region with the list it belongs to. */
  ghost function FreeMap(regs: Regions): map<int, int> {
    map a | a in regs && regs[a].kind.Free? :: Slot(regs[a].size)
  }

  /** Non-empty lists have their bit set; a set bit may be stale. */
  ghost predicate Masked(used: nat, rings: seq<seq<int>>) {
    && (forall i :: 0 <= i < |rings| && |rings[i]| > 2 ==> Bit(used, i))
    && (forall i: nat :: i >= NUM_RINGS ==> !Bit(used, i))
  }

  function NextRoot(blocks: seq<Block>, k: int): int
    requires 0 <= k < |blocks|
  {
    if k + 1 < |blocks| then blocks[k + 1].root else 0
  }

  ghost predicate BlockOk(mem: Memory, regs: Regions, b: Block, next: int) {
    && b.root in regs && regs[b.root].kind.Root? && MIN_REGION <= regs[b.root].size
    && b.end - MIN_REGION in regs && regs[b.end - MIN_REGION].kind.End?
    && 0 < b.root && b.root + MIN_REGION <= b.end - MIN_REGION && b.root + 8 < |mem|
    && mem[b.root + 4] == next && mem[b.root + 8] == b.end
  }

  ghost predicate HasRoot(blocks: seq<Block>, a: int) { exists k :: 0 <= k < |blocks| && blocks[k].root == a }
  ghost predicate HasEnd(blocks: seq<Block>, e: int) { exists k :: 0 <= k < |blocks| && blocks[k].end == e }
  ghost predicate Below(regs: Regions, top: int) { forall a :: a in regs ==> a + regs[a].size <= top }

  /** The list of root regions in memory names exactly the blocks, the latest and highest first. */
  ghost predicate Roots(mem: Memory, head: int, regs: Regions, blocks: seq<Block>) {
    && head == (if |blocks| == 0 then 0 else blocks[0].root)
    && (forall k :: 0 <= k < |blocks| ==> BlockOk(mem, regs, blocks[k], NextRoot(blocks, k)))
    && (forall j, k :: 0 <= j < k < |blocks| ==> blocks[k].end <= blocks[j].root)
    && (forall a :: a in regs && regs[a].kind.Root? ==> HasRoot(blocks, a))
    && (forall a :: a in regs && regs[a].kind.End? ==> HasEnd(blocks, a + MIN_REGION))
    && (|blocks| == 0 ==> regs == map[])
    && (|blocks| > 0 ==> Below(regs, blocks[0].end))
  }

  /** The subdivision part of the invariant. */
  ghost predicate Shape(l: Layout, top: int, regs: Regions) {
    && LayoutOk(l) && l.heapEnd <= top <= l.limit && top % 4 == 0
    && Tiled(regs, l.heapBase, top) && Aligned(regs) && Coalesced(regs)
  }

  ghost predicate HeapOk(l: Layout, mem: Memory, head: int, used: nat, regs: Regions, blocks: seq<Block>,
      rings: seq<seq<int>>) {
    && Shape(l, |mem|, regs)
    && Tagged(mem, regs)
    && Rings(mem, l.buckets, FreeMap(regs), rings)
    && Masked(used, rings)
    && Roots(mem, head, regs, blocks)
  }

  // ----- consequences

  lemma FreeSpaced(l: Layout, top: int, regs: Regions)
    requires LayoutOk(l) && l.heapEnd <= top && Sized(regs, l.heapBase, top) && Disjoint(regs)
    ensures Spaced(l.buckets, FreeMap(regs), top)
    ensures FreeIn(FreeMap(regs), regs)
  {
  }

  /** `free` with the region at `a` added if it is free. */
  ghost function Listing(free: map<int, int>, a: int, size: int, kind: Kind): map<int, int> {
    if kind.Free? then free[a := Slot(size)] else free
  }

  /** `off` are the free regions of `[p, q)`. */
  ghost predicate Covers(regs: Regions, p: int, q: int, off: set<int>) {
    && (forall b :: b in regs && p <= b < q && regs[b].kind.Free? ==> b in off)
    && (forall b :: b in off ==> p <= b < q)
  }

  /** The used regions of `[p, q)` are in `gone`, or the first of them grows. */
  ghost predicate Replaces(regs: Regions, p: int, x: int, q: int, k1: Kind, gone: set<int>) {
    && (forall b :: b in regs && p <= b < q && (regs[b].kind.Used? || regs[b].kind.Root?) ==>
          b in gone || (b == p && p + regs[p].size <= x && k1 == regs[p].kind))
    && (forall b :: b in gone && b in regs ==> !regs[b].kind.Root?)
  }

  /** After an edit the free regions are the old ones outside `[p, q)` and the new free ones inside. */
  lemma FreeMapEdit(regs: Regions, p: int, x: int, q: int, k1: Kind, k2: Kind, gone: set<int>)
    requires CanEdit(regs, p, x, q, k1, k2)
    requires Covers(regs, p, q, gone)
    ensures var f := Listing(FreeMap(regs) - gone, p, x - p, k1);
      FreeMap(Edit(regs, p, x, q, k1, k2)) == (if x < q then Listing(f, x, q - x, k2) else f)
  {
  }

  /** Alignment of the boundaries, where the new one is aligned. */
  lemma AlignedEdit(regs: Regions, p: int, x: int, q: int, k1: Kind, k2: Kind)
    requires CanEdit(regs, p, x, q, k1, k2) && Aligned(regs) && x % 4 == 0
    ensures Aligned(Edit(regs, p, x, q, k1, k2))
  {
    var r := Edit(regs, p, x, q, k1, k2);
    assert p % 4 == 0 && q % 4 == 0;
    Mod4(x, p);
    Mod4(q, x);
    forall a | a in r
      ensures a % 4 == 0 && r[a].size % 4 == 0
    {
      if a < p || q <= a { assert r[a].size == regs[a].size; }
    }
  }

  lemma Mod4(x: int, y: int)
    requires x % 4 == 0 && y % 4 == 0
    ensures (x - y) % 4 == 0 && (x + y) % 4 == 0
  {
  }

  /** Sentinels and the words in the roots survive an edit that keeps all payloads. */
  lemma RootsEdit(mem: Memory, mem': Memory, head: int, regs: Regions, blocks: seq<Block>, gone: set<int>, p: int,
      x: int, q: int, k1: Kind, k2: Kind)
    requires Roots(mem, head, regs, blocks) && PayloadsKept(mem, mem', regs - gone)
    requires forall a :: a in gone && a in regs ==> !regs[a].kind.Root?
    requires CanEdit(regs, p, x, q, k1, k2) && !regs[p].kind.End?
    requires forall a :: a in regs ==> regs[a].size >= 0
    ensures Roots(mem', head, Edit(regs, p, x, q, k1, k2), blocks)
  {
    var r := Edit(regs, p, x, q, k1, k2);
    forall k | 0 <= k < |blocks|
      ensures BlockOk(mem', r, blocks[k], NextRoot(blocks, k))
    {
      BlockEdit(mem, mem', regs, blocks[k], NextRoot(blocks, k), gone, p, x, q, k1, k2);
    }
    SentinelsEdit(regs, p, x, q, k1, k2);
    BelowEdit(regs, blocks[0].end, p, x, q, k1, k2);
  }

  lemma BelowEdit(regs: Regions, top: int, p: int, x: int, q: int, k1: Kind, k2: Kind)
    requires Below(regs, top) && CanEdit(regs, p, x, q, k1, k2)
    requires forall a :: a in regs ==> regs[a].size >= 0
    ensures Below(Edit(regs, p, x, q, k1, k2), top)
  {
  }

  lemma BlockEdit(mem: Memory, mem': Memory, regs: Regions, b: Block, next: int, gone: set<int>, p: int, x: int, q: int,
      k1: Kind, k2: Kind)
    requires BlockOk(mem, regs, b, next) && PayloadsKept(mem, mem', regs - gone)
    requires forall a :: a in gone && a in regs ==> !regs[a].kind.Root?
    requires CanEdit(regs, p, x, q, k1, k2) && !regs[p].kind.End?
    ensures BlockOk(mem', Edit(regs, p, x, q, k1, k2), b, next)
  {
    assert !(p < b.root < q) && b.root != q;
    assert !(p <= b.end - MIN_REGION < q);
    var w1, w2 := b.root + 4, b.root + 8;
    assert b.root in regs - gone;
    assert mem'[w1] == mem[w1] && mem'[w2] == mem[w2];
  }

  lemma SentinelsEdit(regs: Regions, p: int, x: int, q: int, k1: Kind, k2: Kind)
    requires CanEdit(regs, p, x, q, k1, k2) && !regs[p].kind.End?
    ensures var r := Edit(regs, p, x, q, k1, k2);
      forall a :: a in r && (r[a].kind.Root? || r[a].kind.End?) ==> a in regs && regs[a].kind == r[a].kind
  {
  }

  lemma MaskedShorter(used: nat, rings: seq<seq<int>>, i: int, f: seq<int>)
    requires Masked(used, rings) && 0 <= i < |rings| && (|f| <= |rings[i]| || Bit(used, i))
    ensures Masked(used, rings[i := f])
  {
  }

  lemma MaskedSet(used: nat, rings: seq<seq<int>>, i: int, f: seq<int>)
    requires Masked(used, rings) && 0 <= i < |rings| <= NUM_RINGS
    ensures Masked(SetBit(used, i), rings[i := f])
  {
    forall j: nat ensures Bit(SetBit(used, i), j) == (j == i || Bit(used, j)) { SetBitBits(used, i, j); }
  }

  /** The edit is one that frees, uses or resizes: its new free regions have used neighbours. */
  ghost predicate GoodEdit(regs: Regions, p: int, x: int, q: int, k1: Kind, k2: Kind) {
    && CanEdit(regs, p, x, q, k1, k2) && x % 4 == 0 && !regs[p].kind.End?
    && (k1.Free? ==> PrevOf(regs, p) in regs && !regs[PrevOf(regs, p)].kind.Free?)
    && ((if x < q then k2 else k1).Free? ==> !regs[q].kind.Free?)
    && (x < q ==> !(k1.Free? && k2.Free?))
  }

  lemma ShapeEdit(l: Layout, top: int, regs: Regions, p: int, x: int, q: int, k1: Kind, k2: Kind)
    requires Shape(l, top, regs) && GoodEdit(regs, p, x, q, k1, k2)
    ensures Shape(l, top, Edit(regs, p, x, q, k1, k2))
  {
    TiledEdit(regs, l.heapBase, top, p, x, q, k1, k2);
    AlignedEdit(regs, p, x, q, k1, k2);
    CoalescedEdit(regs, l.heapBase, top, p, x, q, k1, k2);
  }

  // ----- reading the tags

  /** A used region's ceiling word is even, a free region's is odd. */
  lemma FlagBit(size: int, kind: Kind)
    requires size % 4 == 0
    ensures Decode(Ceiling(size, kind)) == size
    ensures kind.Free? <==> Decode(Ceiling(size, kind)) != Ceiling(size, kind)
  {
    var i := size / 4;
    assert size == 2 * (2 * i);
  }

  /** The word below a region leads to its predecessor and tells whether that is free. */
  lemma PrevTag(l: Layout, mem: Memory, regs: Regions, a: int)
    requires Shape(l, |mem|, regs) && Tagged(mem, regs) && a in regs && !regs[a].kind.Root?
    ensures var p := PrevOf(regs, a);
      && p in regs && !regs[p].kind.End? && 0 < p < a - 4 && a <= |mem| && NextOf(regs, p) == a
      && a - Decode(mem[a - 4]) == p && (regs[p].kind.Free? <==> Decode(mem[a - 4]) != mem[a - 4])
  {
    var p := PrevOf(regs, a);
    assert TaggedAt(mem, p, regs[p]);
    FlagBit(regs[p].size, regs[p].kind);
  }

  /** The word below the end of a block leads to its end sentinel. */
  lemma EndTag(l: Layout, mem: Memory, regs: Regions, e: int)
    requires Shape(l, |mem|, regs) && Tagged(mem, regs) && e in regs && regs[e].kind.End?
    ensures 0 < e && e + MIN_REGION <= |mem| && Decode(mem[e + MIN_REGION - 4]) == MIN_REGION
  {
    TagOf(mem, regs, e);
  }

  /** A region's ceiling word tells whether it is free. */
  lemma FlagAt(l: Layout, mem: Memory, regs: Regions, a: int)
    requires Shape(l, |mem|, regs) && Tagged(mem, regs) && a in regs
    ensures 0 < a && MIN_REGION <= mem[a] == regs[a].size && a + mem[a] <= |mem|
    ensures regs[a].kind.Free? <==> mem[a + mem[a] - 4] != Decode(mem[a + mem[a] - 4])
  {
    TagOf(mem, regs, a);
    FlagBit(regs[a].size, regs[a].kind);
  }

  /** The size at a region's bottom leads to its successor, whose two size words tell whether it is free. */
  lemma NextTag(l: Layout, mem: Memory, regs: Regions, a: int)
    requires Shape(l, |mem|, regs) && Tagged(mem, regs) && a in regs && !regs[a].kind.End?
    ensures var n := a + mem[a];
      && n == NextOf(regs, a) && n in regs && !regs[n].kind.Root? && PrevOf(regs, n) == a
      && 0 < a < n && mem[n] == regs[n].size && MIN_REGION <= mem[n] && n + mem[n] <= |mem|
      && ((mem[n] != mem[n + mem[n] - 4]) <==> regs[n].kind.Free?)
  {
    var n := NextOf(regs, a);
    assert TaggedAt(mem, a, regs[a]);
    assert TaggedAt(mem, n, regs[n]);
  }

  // ----- the steps that every operation is made of

  /** Relinking free regions keeps tags and payloads. */
  lemma RelinkStep(l: Layout, mem: Memory, mem': Memory, regs: Regions, free: map<int, int>)
    requires Shape(l, |mem|, regs) && Tagged(mem, regs) && FreeIn(free, regs) && LinksOnly(mem, mem', l.buckets, free)
    ensures Tagged(mem', regs) && PayloadsKept(mem, mem', regs)
  {
    LinksKeepTags(mem, mem', l.buckets, free, regs, l.heapBase);
    LinksKeepPayloads(mem, mem', l.buckets, free, regs, l.heapBase);
  }

  /** Writing the tags of an edit whose free regions have been unlinked. */
  lemma EditStep(l: Layout, mem: Memory, regs: Regions, rings: seq<seq<int>>, gone: set<int>, p: int, x: int, q: int,
      k1: Kind, k2: Kind)
    requires Shape(l, |mem|, regs) && Tagged(mem, regs) && GoodEdit(regs, p, x, q, k1, k2)
    requires Rings(mem, l.buckets, FreeMap(regs) - gone, rings)
    requires Covers(regs, p, q, gone)
    ensures 0 <= p && q <= |mem| && p !in FreeMap(regs) - gone && (x < q ==> x !in FreeMap(regs) - gone)
    ensures var mem', regs' := WriteTags(mem, p, x, q, k1, k2), Edit(regs, p, x, q, k1, k2);
      && Shape(l, |mem'|, regs') && Tagged(mem', regs')
      && Rings(mem', l.buckets, FreeMap(regs) - gone, rings)
      && Spaced(l.buckets, FreeMap(regs'), |mem'|) && FreeIn(FreeMap(regs'), regs')
  {
    hide Rings, Tagged, HasNext, HasPrev, Coalesced, Aligned, Edit, WriteTags, Spaced, FreeIn, SameOutside;
    ShapeEdit(l, |mem|, regs, p, x, q, k1, k2);
    TagsEdit(mem, regs, l.heapBase, p, x, q, k1, k2);
    WriteTagsOutside(mem, p, x, q, k1, k2);
    StretchKeepsRings(l, mem, WriteTags(mem, p, x, q, k1, k2), regs, rings, gone, p, q);
    FreeSpaced(l, |mem|, Edit(regs, p, x, q, k1, k2));
    OffStretch(l, |mem|, regs, gone, p, x, q);
  }

  lemma OffStretch(l: Layout, top: int, regs: Regions, gone: set<int>, p: int, x: int, q: int)
    requires Covers(regs, p, q, gone) && p < x <= q
    ensures p !in FreeMap(regs) - gone && (x < q ==> x !in FreeMap(regs) - gone)
  {
  }

  /** Writes inside a stretch whose free regions are all off their lists keep the lists. */
  lemma StretchKeepsRings(l: Layout, mem: Memory, mem': Memory, regs: Regions, rings: seq<seq<int>>, off: set<int>,
      p: int, q: int)
    requires Shape(l, |mem|, regs) && p in regs && Covers(regs, p, q, off)
    requires Rings(mem, l.buckets, FreeMap(regs) - off, rings) && SameOutside(mem, mem', p, q)
    ensures Rings(mem', l.buckets, FreeMap(regs) - off, rings)
  {
    hide Rings, HasNext, HasPrev, SameOutside;
    WindowKeepsRings(mem, mem', l.buckets, FreeMap(regs) - off, rings, p, q);
  }

  /** The regions that are neither new nor replaced survive. */
  lemma SurviveEdit(regs: Regions, p: int, x: int, q: int, k1: Kind, k2: Kind, gone: set<int>)
    requires CanEdit(regs, p, x, q, k1, k2) && Replaces(regs, p, x, q, k1, gone)
    ensures Survive(regs, Edit(regs, p, x, q, k1, k2), gone)
  {
  }

  /** What an operation that unlinks (to `m1`), retags (to `m2`) and relinks (to `m3`) has kept. */
  lemma FinishStep(l: Layout, m0: Memory, m1: Memory, m3: Memory, head: int, regs: Regions, blocks: seq<Block>,
                   gone: set<int>, p: int, x: int, q: int, k1: Kind, k2: Kind)
    requires Shape(l, |m0|, regs) && Roots(m0, head, regs, blocks) && |m1| == |m0| && 0 <= p && q <= |m1|
    requires GoodEdit(regs, p, x, q, k1, k2) && Replaces(regs, p, x, q, k1, gone)
    requires PayloadsKept(m0, m1, regs)
    requires PayloadsKept(WriteTags(m1, p, x, q, k1, k2), m3, Edit(regs, p, x, q, k1, k2))
    ensures PayloadsKept(m0, m3, regs - gone)
    ensures Roots(m3, head, Edit(regs, p, x, q, k1, k2), blocks)
    ensures Survive(regs, Edit(regs, p, x, q, k1, k2), gone)
  {
    hide PayloadsKept, Roots, Tiled, Survive, Edit, WriteTags;
    var m2 := WriteTags(m1, p, x, q, k1, k2);
    FinishPayloads(l, m0, m1, regs, gone, p, x, q, k1, k2);
    SurviveEdit(regs, p, x, q, k1, k2, gone);
    PayloadsTrans(m0, m2, m3, regs, Edit(regs, p, x, q, k1, k2), gone);
    FinishRoots(l, m0, m3, head, regs, blocks, gone, p, x, q, k1, k2);
  }

  lemma FinishPayloads(l: Layout, m0: Memory, m1: Memory, regs: Regions, gone: set<int>, p: int, x: int, q: int,
      k1: Kind, k2: Kind)
    requires Shape(l, |m1|, regs) && |m1| == |m0| && 0 <= p && q <= |m1|
    requires GoodEdit(regs, p, x, q, k1, k2) && Replaces(regs, p, x, q, k1, gone)
    requires PayloadsKept(m0, m1, regs)
    ensures PayloadsKept(m0, WriteTags(m1, p, x, q, k1, k2), regs - gone)
  {
    WriteTagsPayloads(m1, regs, l.heapBase, p, x, q, k1, k2, gone);
    hide WriteTags, Tiled, Replaces, Edit;
  }

  lemma FinishRoots(l: Layout, m0: Memory, m3: Memory, head: int, regs: Regions, blocks: seq<Block>,
                    gone: set<int>, p: int, x: int, q: int, k1: Kind, k2: Kind)
    requires Shape(l, |m0|, regs) && Roots(m0, head, regs, blocks)
    requires GoodEdit(regs, p, x, q, k1, k2) && Replaces(regs, p, x, q, k1, gone)
    requires PayloadsKept(m0, m3, regs - gone)
    ensures Roots(m3, head, Edit(regs, p, x, q, k1, k2), blocks)
  {
    RootsEdit(m0, m3, head, regs, blocks, gone, p, x, q, k1, k2);
  }

  // ----- freeing

  /** The stretch that `free` turns into one free region: the region and its free neighbours. */
  ghost function FreeFrom(regs: Regions, a: int): int
    requires a in regs && PrevOf(regs, a) in regs
  {
    if regs[PrevOf(regs, a)].kind.Free? then PrevOf(regs, a) else a
  }

  ghost function FreeTo(regs: Regions, a: int): int
    requires a in regs && NextOf(regs, a) in regs
  {
    if regs[NextOf(regs, a)].kind.Free? then NextOf(regs, NextOf(regs, a)) else NextOf(regs, a)
  }

  ghost function FreeOff(regs: Regions, a: int): set<int>
    requires a in regs && PrevOf(regs, a) in regs && NextOf(regs, a) in regs
  {
    PrevOff(regs, a) + NextOff(regs, a)
  }

  ghost function PrevOff(regs: Regions, a: int): set<int>
    requires a in regs && PrevOf(regs, a) in regs
  {
    if regs[PrevOf(regs, a)].kind.Free? then {PrevOf(regs, a)} else {}
  }

  ghost function NextOff(regs: Regions, a: int): set<int>
    requires a in regs && NextOf(regs, a) in regs
  {
    if regs[NextOf(regs, a)].kind.Free? then {NextOf(regs, a)} else {}
  }

  ghost predicate CanFree(regs: Regions, a: int) {
    && a in regs && PrevOf(regs, a) in regs && NextOf(regs, a) in regs
    && FreeFrom(regs, a) in regs && FreeTo(regs, a) in regs && FreeFrom(regs, a) < FreeTo(regs, a)
  }

  /** The regions after freeing `a`. */
  ghost function Freed(regs: Regions, a: int): Regions
    requires CanFree(regs, a)
  {
    Edit(regs, FreeFrom(regs, a), FreeTo(regs, a), FreeTo(regs, a), Free, Free)
  }

  ghost predicate FreedTo(regs: Regions, a: int, regs': Regions) { CanFree(regs, a) && regs' == Freed(regs, a) }

  lemma FreeSpan(l: Layout, top: int, regs: Regions, a: int)
    requires Shape(l, top, regs) && a in regs && regs[a].kind.Used?
    ensures PrevOf(regs, a) in regs && NextOf(regs, a) in regs && NextOf(regs, PrevOf(regs, a)) == a
    ensures regs[NextOf(regs, a)].kind.Free? ==> NextOf(regs, NextOf(regs, a)) in regs
    ensures FreeFrom(regs, a) in regs && FreeTo(regs, a) in regs && FreeFrom(regs, a) <= a < FreeTo(regs, a)
    ensures PrevOf(regs, a) < a < NextOf(regs, a)
    ensures regs[NextOf(regs, a)].kind.Free? ==> NextOf(regs, a) < FreeTo(regs, a)
    ensures forall b :: b in regs && FreeFrom(regs, a) <= b < FreeTo(regs, a) ==>
              b == a || (regs[b].kind.Free? && (b == PrevOf(regs, a) || b == NextOf(regs, a)))
  {
    var p, n := PrevOf(regs, a), NextOf(regs, a);
    assert p in regs && NextOf(regs, p) == a;
    if regs[n].kind.Free? { assert NextOf(regs, n) in regs; }
  }

  lemma FreeGood(l: Layout, top: int, regs: Regions, a: int)
    requires Shape(l, top, regs) && a in regs && regs[a].kind.Used?
    ensures PrevOf(regs, a) in regs && NextOf(regs, a) in regs && NextOf(regs, PrevOf(regs, a)) == a
    ensures regs[NextOf(regs, a)].kind.Free? ==> NextOf(regs, NextOf(regs, a)) in regs
    ensures FreeFrom(regs, a) in regs && FreeTo(regs, a) in regs && FreeFrom(regs, a) <= a < FreeTo(regs, a)
    ensures GoodEdit(regs, FreeFrom(regs, a), FreeTo(regs, a), FreeTo(regs, a), Free, Free)
    ensures Covers(regs, FreeFrom(regs, a), FreeTo(regs, a), FreeOff(regs, a))
    ensures Replaces(regs, FreeFrom(regs, a), FreeTo(regs, a), FreeTo(regs, a), Free, {a})
  {
    hide Shape;
    FreeSpan(l, top, regs, a);
    FreeSpanGood(l, top, regs, a);
    FreeCovers(regs, a);
  }

  lemma FreeCovers(regs: Regions, a: int)
    requires a in regs && regs[a].kind.Used? && PrevOf(regs, a) in regs && NextOf(regs, a) in regs
    requires PrevOf(regs, a) < a < NextOf(regs, a)
    requires regs[NextOf(regs, a)].kind.Free? ==> NextOf(regs, a) < FreeTo(regs, a)
    requires FreeFrom(regs, a) in regs && FreeTo(regs, a) in regs
    requires forall b :: b in regs && FreeFrom(regs, a) <= b < FreeTo(regs, a) ==>
              b == a || (regs[b].kind.Free? && (b == PrevOf(regs, a) || b == NextOf(regs, a)))
    ensures Covers(regs, FreeFrom(regs, a), FreeTo(regs, a), FreeOff(regs, a))
    ensures Replaces(regs, FreeFrom(regs, a), FreeTo(regs, a), FreeTo(regs, a), Free, {a})
  {
  }

  lemma FreeSpanGood(l: Layout, top: int, regs: Regions, a: int)
    requires Shape(l, top, regs) && a in regs && regs[a].kind.Used?
    requires PrevOf(regs, a) in regs && NextOf(regs, a) in regs && NextOf(regs, PrevOf(regs, a)) == a
    requires regs[NextOf(regs, a)].kind.Free? ==> NextOf(regs, NextOf(regs, a)) in regs
    requires FreeFrom(regs, a) in regs && FreeTo(regs, a) in regs && FreeFrom(regs, a) <= a < FreeTo(regs, a)
    requires forall b :: b in regs && FreeFrom(regs, a) <= b < FreeTo(regs, a) ==>
              b == a || (regs[b].kind.Free? && (b == PrevOf(regs, a) || b == NextOf(regs, a)))
    ensures GoodEdit(regs, FreeFrom(regs, a), FreeTo(regs, a), FreeTo(regs, a), Free, Free)
  {
    hide Disjoint;
    var p, n := PrevOf(regs, a), NextOf(regs, a);
    if regs[p].kind.Free? { FreeNeighbours(l, top, regs, p); }
    if regs[n].kind.Free? { FreeNeighbours(l, top, regs, n); }
  }

  lemma FreedAt(regs: Regions, a: int)
    requires CanFree(regs, a) && FreeFrom(regs, a) <= a
    ensures var p, q := FreeFrom(regs, a), FreeTo(regs, a);
      p in Freed(regs, a) && Freed(regs, a)[p].size == q - p && Freed(regs, a)[p].kind.Free?
  {
  }

  /** Freeing one region does not touch any other used one. */
  lemma FreedKeeps(l: Layout, top: int, regs: Regions, a: int, b: int, regs': Regions)
    requires Shape(l, top, regs) && a in regs && regs[a].kind.Used? && FreedTo(regs, a, regs')
    requires b in regs && regs[b].kind.Used? && b != a
    ensures b in regs' && regs'[b].kind.Used? && regs'[b].size == regs[b].size
  {
    hide Shape;
    FreeSpan(l, top, regs, a);
  }

  // ----- allocating

  /** The regions after the boundary below the free region `f` has moved up to `f'`. */
  ghost function Bumped(regs: Regions, f: int, f': int): Regions
    requires f in regs && PrevOf(regs, f) in regs && NextOf(regs, f) in regs
    requires PrevOf(regs, f) < f <= f' < NextOf(regs, f)
  {
    if f' == f then regs
    else Edit(regs, PrevOf(regs, f), f', NextOf(regs, f), regs[PrevOf(regs, f)].kind, Free)
  }

  /** Where the used part of a free region ends: the rest stays free if it can hold a region. */
  function CarveEnd(f: int, m: int, size: int): int {
    if MIN_REGION + HEADER + size <= m - f then f + HEADER + size else m
  }

  /** The regions after an allocation of `size` bytes at `f'` in the free region `f`. */
  ghost function Allocated(regs: Regions, f: int, f': int, size: int): Regions
    requires f in regs && PrevOf(regs, f) in regs && NextOf(regs, f) in regs
    requires PrevOf(regs, f) < f <= f' < NextOf(regs, f) && 0 < size && f' + HEADER + size <= NextOf(regs, f)
  {
    Edit(Bumped(regs, f, f'), f', CarveEnd(f', NextOf(regs, f), size), NextOf(regs, f), Used, Free)
  }

  /** A free region always has used neighbours. */
  lemma FreeNeighbours(l: Layout, top: int, regs: Regions, f: int)
    requires Shape(l, top, regs) && f in regs && regs[f].kind.Free?
    ensures PrevOf(regs, f) in regs && (regs[PrevOf(regs, f)].kind.Used? || regs[PrevOf(regs, f)].kind.Root?)
    ensures NextOf(regs, PrevOf(regs, f)) == f && PrevOf(regs, f) + MIN_REGION <= f
    ensures NextOf(regs, f) in regs && f + MIN_REGION <= NextOf(regs, f) <= top && 0 < PrevOf(regs, f)
    ensures !regs[NextOf(regs, f)].kind.Free? && !regs[NextOf(regs, f)].kind.Root?
  {
    var p := PrevOf(regs, f);
    assert p in regs && NextOf(regs, p) == f;
    var n := NextOf(regs, f);
  }

  lemma BumpGood(l: Layout, top: int, regs: Regions, f: int, f': int)
    requires Shape(l, top, regs) && f in regs && regs[f].kind.Free?
    requires f < f' && f' % 4 == 0 && f' + MIN_REGION <= NextOf(regs, f)
    ensures PrevOf(regs, f) in regs && NextOf(regs, f) in regs && PrevOf(regs, f) < f
    ensures GoodEdit(regs, PrevOf(regs, f), f', NextOf(regs, f), regs[PrevOf(regs, f)].kind, Free)
    ensures Covers(regs, PrevOf(regs, f), NextOf(regs, f), {f})
    ensures Replaces(regs, PrevOf(regs, f), f', NextOf(regs, f), regs[PrevOf(regs, f)].kind, {})
  {
    FreeNeighbours(l, top, regs, f);
  }

  lemma CarveGood(l: Layout, top: int, regs: Regions, f: int, size: int)
    requires Shape(l, top, regs) && f in regs && regs[f].kind.Free?
    requires size % 4 == 0 && 8 <= size && f + HEADER + size <= NextOf(regs, f)
    ensures NextOf(regs, f) in regs && f < CarveEnd(f, NextOf(regs, f), size) <= NextOf(regs, f)
    ensures GoodEdit(regs, f, CarveEnd(f, NextOf(regs, f), size), NextOf(regs, f), Used, Free)
    ensures Covers(regs, f, NextOf(regs, f), {f})
    ensures Replaces(regs, f, CarveEnd(f, NextOf(regs, f), size), NextOf(regs, f), Used, {})
  {
    FreeNeighbours(l, top, regs, f);
    Mod4(f, size);
    Mod4(f + size, HEADER);
  }

  ghost predicate CanBump(top: int, regs: Regions, f: int, f': int) {
    && f in regs && PrevOf(regs, f) in regs && NextOf(regs, f) in regs
    && 0 < PrevOf(regs, f) && PrevOf(regs, f) + MIN_REGION <= f <= f' && f' + MIN_REGION <= NextOf(regs, f) <= top
  }

  /** The memory after moving the boundary, with all size words up to date. */
  ghost function BumpedMem(mem: Memory, regs: Regions, f: int, f': int): (mid: Memory)
    requires CanBump(|mem|, regs, f, f')
    ensures |mid| == |mem|
  {
    if f' == f then mem
    else WriteTags(mem, PrevOf(regs, f), f', NextOf(regs, f), regs[PrevOf(regs, f)].kind, Free)
  }

  /** Moving the boundary below `f` leaves `f'` the only free region that is off its list. */
  lemma BumpStep(l: Layout, mem: Memory, regs: Regions, rings: seq<seq<int>>, f: int, f': int)
    requires Shape(l, |mem|, regs) && Tagged(mem, regs) && f in regs && regs[f].kind.Free?
    requires Rings(mem, l.buckets, FreeMap(regs) - {f}, rings)
    requires f <= f' && f' % 4 == 0 && f' + MIN_REGION <= NextOf(regs, f)
    ensures CanBump(|mem|, regs, f, f')
    ensures Shape(l, |mem|, Bumped(regs, f, f')) && Tagged(BumpedMem(mem, regs, f, f'), Bumped(regs, f, f'))
    ensures Rings(BumpedMem(mem, regs, f, f'), l.buckets, FreeMap(Bumped(regs, f, f')) - {f'}, rings)
  {
    hide Tagged, Rings, Shape, GoodEdit, Covers, Replaces, FreeMap, Edit, WriteTags, Slot, Spaced, FreeIn;
    FreeNeighbours(l, |mem|, regs, f);
    var p, m := PrevOf(regs, f), NextOf(regs, f);
    if f' > f {
      BumpGood(l, |mem|, regs, f, f');
      EditStep(l, mem, regs, rings, {f}, p, f', m, regs[p].kind, Free);
      FreeMapEdit(regs, p, f', m, regs[p].kind, Free, {f});
      var free := FreeMap(regs) - {f};
      assert FreeMap(Bumped(regs, f, f')) == free[f' := Slot(m - f')];
      assert free[f' := Slot(m - f')] - {f'} == free;
    }
  }

  lemma BumpedAt(regs: Regions, f: int, f': int)
    requires f in regs && PrevOf(regs, f) in regs && NextOf(regs, f) in regs && regs[f].kind.Free?
    requires PrevOf(regs, f) < f <= f' < NextOf(regs, f)
    ensures f' in Bumped(regs, f, f') && Bumped(regs, f, f')[f'].kind.Free?
    ensures NextOf(Bumped(regs, f, f'), f') == NextOf(regs, f)
  {
  }

  /** Writes inside a region that is on no list keep the lists. */
  lemma RegionKeepsRings(l: Layout, mem: Memory, mem': Memory, regs: Regions, rings: seq<seq<int>>, free: map<int, int>,
      a: int)
    requires Shape(l, |mem|, regs) && a in regs && FreeIn(free, regs) && a !in free
    requires Rings(mem, l.buckets, free, rings) && SameOutside(mem, mem', a, a + regs[a].size)
    ensures Rings(mem', l.buckets, free, rings)
  {
    WindowKeepsRings(mem, mem', l.buckets, free, rings, a, a + regs[a].size);
  }

  /** Writing the same two words into two memories that differ in link words only. */
  lemma SameWrites(mem: Memory, mem': Memory, buckets: int, free: map<int, int>, w1: int, v1: int, w2: int, v2: int)
    requires LinksOnly(mem, mem', buckets, free) && 0 <= w1 < |mem| && 0 <= w2 < |mem|
    ensures LinksOnly(mem[w1 := v1][w2 := v2], mem'[w1 := v1][w2 := v2], buckets, free)
  {
  }

  /** The state after splitting the stretch `[p, m)`, whose free regions are unlinked, at `x`. */
  lemma SplitStep(l: Layout, mid: Memory, regs: Regions, rings: seq<seq<int>>, off: set<int>, p: int, x: int, m: int)
    requires Shape(l, |mid|, regs) && Tagged(mid, regs) && Rings(mid, l.buckets, FreeMap(regs) - off, rings)
    requires GoodEdit(regs, p, x, m, Used, Free) && Covers(regs, p, m, off)
    ensures 0 < p && m <= |mid|
    ensures var regs', mid' := Edit(regs, p, x, m, Used, Free), WriteTags(mid, p, x, m, Used, Free);
      && Shape(l, |mid|, regs') && Tagged(mid', regs') && Rings(mid', l.buckets, FreeMap(regs) - off, rings)
      && FreeMap(regs') == (if x < m then (FreeMap(regs) - off)[x := Slot(m - x)] else FreeMap(regs) - off)
      && (x < m ==> x !in FreeMap(regs) - off && x in regs' && regs'[x].size == m - x && regs'[x].kind.Free?)
      && Spaced(l.buckets, FreeMap(regs'), |mid|) && FreeIn(FreeMap(regs'), regs') && p !in FreeMap(regs')
      && p in regs' && regs'[p].size == x - p && m - x < WORD
  {
    hide Tagged, Rings, Replaces, Spaced, Slot, WriteTags, HasNext, HasPrev, Disjoint;
    EditStep(l, mid, regs, rings, off, p, x, m, Used, Free);
    FreeMapEdit(regs, p, x, m, Used, Free, off);
  }

  lemma FreeMapHas(regs: Regions, f: int)
    requires f in regs && regs[f].kind.Free?
    ensures f in FreeMap(regs) && FreeMap(regs) - {} == FreeMap(regs)
  {
  }

  /** What an allocation has kept: `m1` is the memory with the region unlinked. */
  lemma AllocateFinish(l: Layout, m0: Memory, m1: Memory, m3: Memory, head: int, regs: Regions, blocks: seq<Block>,
      f: int, f': int, size: int)
    requires Shape(l, |m0|, regs) && Roots(m0, head, regs, blocks) && |m1| == |m0| && f in regs && regs[f].kind.Free?
    requires CanBump(|m1|, regs, f, f') && f' % 4 == 0 && size % 4 == 0 && 8 <= size &&
      f' + HEADER + size <= NextOf(regs, f)
    requires Shape(l, |m1|, Bumped(regs, f, f'))
    requires PayloadsKept(m0, m1, regs)
    requires f' in Bumped(regs, f, f') && NextOf(regs, f) in Bumped(regs, f, f') &&
      CarveEnd(f', NextOf(regs, f), size) <= NextOf(regs, f)
    requires PayloadsKept(WriteTags(BumpedMem(m1, regs, f, f'), f', CarveEnd(f', NextOf(regs, f), size),
      NextOf(regs, f), Used, Free),
                          m3, Allocated(regs, f, f', size))
    ensures PayloadsKept(m0, m3, regs) && Roots(m3, head, Allocated(regs, f, f', size), blocks)
    ensures Survive(regs, Allocated(regs, f, f', size), {})
  {
    hide Shape, Roots, PayloadsKept, Edit, Survive, GoodEdit, Covers, Replaces, WriteTags;
    var p, m, r1, mid := PrevOf(regs, f), NextOf(regs, f), Bumped(regs, f, f'), BumpedMem(m1, regs, f, f');
    var x := CarveEnd(f', m, size);
    assert regs - {} == regs && r1 - {} == r1;
    BumpedAt(regs, f, f');
    SurviveRefl(regs);
    if f' > f {
      BumpGood(l, |m0|, regs, f, f');
      PayloadsRefl(mid, r1);
      FinishStep(l, m0, m1, mid, head, regs, blocks, {}, p, f', m, regs[p].kind, Free);
    } else {
      RootsKept(m0, m1, head, regs, blocks);
    }
    CarveGood(l, |m0|, r1, f', size);
    PayloadsRefl(mid, r1);
    FinishStep(l, mid, mid, m3, head, r1, blocks, {}, f', x, m, Used, Free);
    PayloadsTrans(m0, mid, m3, regs, r1, {});
    SurviveTrans(regs, r1, Allocated(regs, f, f', size));
  }

  lemma SurviveRefl(regs: Regions)
    ensures Survive(regs, regs, {})
  {
  }

  lemma SurviveTrans(r0: Regions, r1: Regions, r2: Regions)
    requires Survive(r0, r1, {}) && Survive(r1, r2, {})
    ensures Survive(r0, r2, {})
  {
  }

  lemma RootsKept(mem: Memory, mem': Memory, head: int, regs: Regions, blocks: seq<Block>)
    requires Roots(mem, head, regs, blocks) && PayloadsKept(mem, mem', regs)
    ensures Roots(mem', head, regs, blocks)
  {
    var none: set<int> := {};
    assert regs - none == regs;
    RootsKeptBut(mem, mem', head, regs, blocks, none);
  }

  lemma RootsKeptBut(mem: Memory, mem': Memory, head: int, regs: Regions, blocks: seq<Block>, gone: set<int>)
    requires Roots(mem, head, regs, blocks) && PayloadsKept(mem, mem', regs - gone)
    requires forall a :: a in gone && a in regs ==> !regs[a].kind.Root?
    ensures Roots(mem', head, regs, blocks)
  {
    hide BlockOk, PayloadsKept, HasRoot, HasEnd, Below;
    forall k | 0 <= k < |blocks|
      ensures BlockOk(mem', regs, blocks[k], NextRoot(blocks, k))
    {
      BlockKept(mem, mem', regs, blocks[k], NextRoot(blocks, k), gone);
    }
  }

  lemma BlockKept(mem: Memory, mem': Memory, regs: Regions, b: Block, next: int, gone: set<int>)
    requires BlockOk(mem, regs, b, next) && PayloadsKept(mem, mem', regs - gone)
    requires forall a :: a in gone && a in regs ==> !regs[a].kind.Root?
    ensures BlockOk(mem', regs, b, next)
  {
    var w1, w2 := b.root + 4, b.root + 8;
    assert b.root in regs - gone;
    assert mem'[w1] == mem[w1] && mem'[w2] == mem[w2];
  }

  // ----- the fit test, in 32-bit arithmetic

  /** The test of `attempt_allocate` for a payload that would end beyond the free region's. */
  predicate Overruns(start: nat, size: nat, payloadEnd: int) { (start + size) % WORD > payloadEnd }

  /** The test of `attempt_allocate` on the free region `f` tells whether the request fits there if and
      only if the end of the payload does not wrap round into the region or below it. */
  lemma FitTestExact(l: Layout, top: int, regs: Regions, f: int, alignment: nat, size: nat)
    requires Shape(l, top, regs) && f in regs && regs[f].kind.Free? && f > 0 && alignment > 0
    ensures var end := AlignUp(f + 4, alignment) + size;
      (!Overruns(AlignUp32(f + 4, alignment), size, NextOf(regs, f) - 4) <==> Fits(regs, f, alignment, size)) <==>
      end < WORD || end % WORD > NextOf(regs, f) - 4
  {
    hide HasNext, HasPrev, Coalesced, Aligned, Disjoint, AlignUp;
    var start := AlignUp(f + 4, alignment);
    assert (start % WORD + size) % WORD == (start + size) % WORD;
    assert NextOf(regs, f) <= top < WORD;
  }

  /** A request that fits passes the test, and its aligned start is the true one. */
  lemma FitTest(p: nat, alignment: nat, size: nat, payloadEnd: int)
    requires 16 <= alignment && alignment % 16 == 0 && AlignUp(p, alignment) + size <= payloadEnd < WORD
    ensures AlignUp32(p, alignment) == AlignUp(p, alignment) && (AlignUp(p, alignment) - 4) % 4 == 0
    ensures !Overruns(AlignUp32(p, alignment), size, payloadEnd)
  {
    AlignUpMultiple(p, alignment);
    Mod16Trans(AlignUp(p, alignment), alignment);
  }

  /** The free region `f` passes the test for a request that does not fit there. */
  ghost predicate FalseFit(regs: Regions, f: int, alignment: nat, size: nat)
    requires f in regs && f > 0 && alignment > 0
  {
    && !Fits(regs, f, alignment, size)
    && !Overruns(AlignUp32(f + 4, alignment), size, NextOf(regs, f) - 4)
  }

  ghost predicate HasFalseFit(regs: Regions, alignment: nat, size: nat) {
    alignment > 0 && exists f :: f in regs && f > 0 && regs[f].kind.Free? && FalseFit(regs, f, alignment, size)
  }

  lemma FalseFitAt(regs: Regions, f: int, alignment: nat, size: nat)
    requires f in regs && f > 0 && regs[f].kind.Free? && alignment > 0
    requires AlignUp(f + 4, alignment) + size > NextOf(regs, f) - 4
    requires !Overruns(AlignUp32(f + 4, alignment), size, NextOf(regs, f) - 4)
    ensures HasFalseFit(regs, alignment, size)
  {
    assert FalseFit(regs, f, alignment, size);
  }

  lemma NextAbove(l: Layout, top: int, regs: Regions, a: int)
    requires Shape(l, top, regs) && a in regs
    ensures a + MIN_REGION <= NextOf(regs, a)
  {
  }

  /** After a free region comes another one. */
  lemma FreeEndsBelow(l: Layout, top: int, regs: Regions, f: int)
    requires Shape(l, top, regs) && f in regs && regs[f].kind.Free?
    ensures NextOf(regs, f) + MIN_REGION <= top && 0 < f
  {
    assert NextOf(regs, f) in regs;
  }

  /** This takes memory, alignment and request of more than 2^32 bytes together. */
  lemma FalseFitFar(l: Layout, top: int, regs: Regions, alignment: nat, size: nat)
    requires Shape(l, top, regs) && HasFalseFit(regs, alignment, size)
    ensures top + alignment + size > WORD
  {
    hide Shape, AlignUp, AlignUp32, Overruns, Fits;
    var f :| f in regs && f > 0 && regs[f].kind.Free? && FalseFit(regs, f, alignment, size);
    FitTestExact(l, top, regs, f, alignment, size);
    RegionBelow(l, top, regs, f);
  }

  lemma RegionBelow(l: Layout, top: int, regs: Regions, f: int)
    requires Shape(l, top, regs) && f in regs
    ensures f + MIN_REGION <= top
  {
  }

  /** The test of `attempt_region_resize` wraps round: the next region is free, and the region after the
      resized one would end at 2^32 or above. */
  ghost predicate ResizeWraps(regs: Regions, a: int, size: int) {
    && a in regs && NextOf(regs, a) in regs && regs[NextOf(regs, a)].kind.Free?
    && a + size + MIN_REGION >= WORD
  }

  lemma UsedSize(l: Layout, top: int, regs: Regions, a: int)
    requires Shape(l, top, regs) && a in regs
    ensures MIN_REGION <= regs[a].size <= WORD - NODE_SIZE * NUM_RINGS && regs[a].size % 4 == 0
  {
    hide HasNext, HasPrev, Coalesced, Disjoint;
  }

  // ----- resizing

  /** The region, with a free one after it, has room for `size` bytes. */
  ghost predicate FitsInPlace(regs: Regions, a: int, size: int) {
    a in regs && NextOf(regs, a) in regs && a + size <= FreeTo(regs, a)
  }

  ghost predicate CanResize(regs: Regions, a: int, size: int) {
    && a in regs && NextOf(regs, a) in regs && FreeTo(regs, a) in regs
    && MIN_REGION <= size && a + size <= FreeTo(regs, a)
  }

  /** Where region `a` ends after resizing: the rest up to the next used region stays free if it can
      hold a region, and goes with `a` if not. */
  ghost function ResizeEnd(regs: Regions, a: int, size: int): int
    requires CanResize(regs, a, size)
  {
    if a + size + MIN_REGION <= FreeTo(regs, a) then a + size else FreeTo(regs, a)
  }

  /** The regions after resizing `a` in place. */
  ghost function Resized(regs: Regions, a: int, size: int): Regions
    requires CanResize(regs, a, size)
  {
    Edit(regs, a, ResizeEnd(regs, a, size), FreeTo(regs, a), Used, Free)
  }

  ghost function ResizeOff(regs: Regions, a: int): set<int>
    requires a in regs && NextOf(regs, a) in regs
  {
    if regs[NextOf(regs, a)].kind.Free? then {NextOf(regs, a)} else {}
  }

  lemma ResizeGood(l: Layout, top: int, regs: Regions, a: int, size: int)
    requires Shape(l, top, regs) && a in regs && regs[a].kind.Used? && size % 4 == 0 && MIN_REGION <= size
    ensures NextOf(regs, a) in regs && FreeTo(regs, a) in regs && 0 < a < NextOf(regs, a) <= FreeTo(regs, a) <= top
    ensures a + size <= FreeTo(regs, a) <==> CanResize(regs, a, size)
    ensures CanResize(regs, a, size) ==>
      && GoodEdit(regs, a, ResizeEnd(regs, a, size), FreeTo(regs, a), Used, Free)
      && Covers(regs, a, FreeTo(regs, a), ResizeOff(regs, a))
      && Replaces(regs, a, ResizeEnd(regs, a, size), FreeTo(regs, a), Used, {a})
  {
    hide Shape, GoodEdit;
    ResizeSpan(l, top, regs, a);
    if CanResize(regs, a, size) {
      ResizeEdit(l, top, regs, a, size);
      ResizeCovers(l, top, regs, a, size);
    }
  }

  lemma ResizeSpan(l: Layout, top: int, regs: Regions, a: int)
    requires Shape(l, top, regs) && a in regs && regs[a].kind.Used?
    ensures NextOf(regs, a) in regs && FreeTo(regs, a) in regs && 0 < a < NextOf(regs, a) <= FreeTo(regs, a) <= top
    ensures !regs[FreeTo(regs, a)].kind.Free? && !regs[FreeTo(regs, a)].kind.Root?
    ensures forall b :: b in regs && a < b < FreeTo(regs, a) ==> b == NextOf(regs, a) && regs[b].kind.Free?
  {
    var n := NextOf(regs, a);
    if regs[n].kind.Free? { FreeNeighbours(l, top, regs, n); }
  }

  lemma ResizeEdit(l: Layout, top: int, regs: Regions, a: int, size: int)
    requires Shape(l, top, regs) && a in regs && regs[a].kind.Used? && size % 4 == 0 && MIN_REGION <= size
    requires CanResize(regs, a, size)
    ensures GoodEdit(regs, a, ResizeEnd(regs, a, size), FreeTo(regs, a), Used, Free)
  {
    ResizeSpan(l, top, regs, a);
    ResizeRoom(l, top, regs, a, size);
    Mod4(a, size);
  }

  lemma ResizeRoom(l: Layout, top: int, regs: Regions, a: int, size: int)
    requires Shape(l, top, regs) && a in regs && CanResize(regs, a, size)
    ensures a % 4 == 0 && FreeTo(regs, a) % 4 == 0
  {
    hide Tiled, Coalesced;
  }

  lemma ResizeCovers(l: Layout, top: int, regs: Regions, a: int, size: int)
    requires Shape(l, top, regs) && a in regs && regs[a].kind.Used? && CanResize(regs, a, size)
    ensures Covers(regs, a, FreeTo(regs, a), ResizeOff(regs, a))
    ensures Replaces(regs, a, ResizeEnd(regs, a, size), FreeTo(regs, a), Used, {a})
  {
    hide Shape;
    ResizeSpan(l, top, regs, a);
  }

  /** Nothing changes when a region is asked for what it already has. */
  lemma ResizeSame(l: Layout, top: int, regs: Regions, a: int, size: int)
    requires Shape(l, top, regs) && a in regs && regs[a].kind.Used? && CanResize(regs, a, size)
    requires !regs[NextOf(regs, a)].kind.Free? && ResizeEnd(regs, a, size) == FreeTo(regs, a)
    ensures Resized(regs, a, size) == regs
  {
    var n := NextOf(regs, a);
    assert PrevOf(regs, n) == a;
    assert forall b :: b in regs && a < b ==> n <= b;
  }

  /** The first `n - HEADER` payload bytes of region `a` are the same. */
  ghost predicate PrefixKept(mem: Memory, mem': Memory, a: int, n: int) {
    |mem| <= |mem'| && forall w :: a + 4 <= w < a + n - 4 && 0 <= w < |mem| ==> mem'[w] == mem[w]
  }

  lemma ResizePrefix(m0: Memory, m1: Memory, m3: Memory, regs: Regions, a: int, x: int, q: int, n: int)
    requires CanEdit(regs, a, x, q, Used, Free) && regs[a].kind.Used? && 0 <= a && q <= |m1| && |m0| == |m1|
    requires PayloadsKept(m0, m1, regs)
    requires PayloadsKept(WriteTags(m1, a, x, q, Used, Free), m3, Edit(regs, a, x, q, Used, Free))
    requires n <= regs[a].size && a + n <= x
    ensures PrefixKept(m0, m3, a, n)
  {
    var m2 := WriteTags(m1, a, x, q, Used, Free);
    var r := Edit(regs, a, x, q, Used, Free);
    assert a in r && r[a].kind.Used? && r[a].size == x - a;
    forall w | a + 4 <= w < a + n - 4 && 0 <= w < |m0|
      ensures m3[w] == m0[w]
    {
      assert m1[w] == m0[w] && m2[w] == m1[w] && m3[w] == m2[w];
    }
  }

  // ----- claiming memory

  /** `mem'` is `mem` with more memory at the end. */
  ghost predicate Grown(mem: Memory, mem': Memory) {
    |mem| <= |mem'| && forall w :: 0 <= w < |mem| ==> mem'[w] == mem[w]
  }

  /** Growing the memory changes nothing about the heap. */
  lemma GrowStep(l: Layout, mem: Memory, mem': Memory, head: int, used: nat, regs: Regions, blocks: seq<Block>,
      rings: seq<seq<int>>)
    requires HeapOk(l, mem, head, used, regs, blocks, rings)
    requires Grown(mem, mem') && |mem'| <= l.limit && |mem'| % 4 == 0
    ensures HeapOk(l, mem', head, used, regs, blocks, rings)
    ensures PayloadsKept(mem, mem', regs)
  {
    hide Shape, Tagged, Rings, Masked, Roots, PayloadsKept, FreeMap;
    GrowShape(l, |mem|, |mem'|, regs);
    GrowTags(mem, mem', regs);
    GrowRings(l, mem, mem', regs, rings);
    RootsKept(mem, mem', head, regs, blocks);
  }

  lemma GrowShape(l: Layout, top: int, top': int, regs: Regions)
    requires Shape(l, top, regs) && top <= top' <= l.limit && top' % 4 == 0
    ensures Shape(l, top', regs)
  {
    hide HasNext, HasPrev, Disjoint, Aligned, Coalesced;
  }

  lemma GrowTags(mem: Memory, mem': Memory, regs: Regions)
    requires Tagged(mem, regs) && Grown(mem, mem')
    ensures Tagged(mem', regs) && PayloadsKept(mem, mem', regs)
  {
    forall a | a in regs ensures TaggedAt(mem', a, regs[a]) { TagOf(mem, regs, a); }
  }

  lemma GrowRings(l: Layout, mem: Memory, mem': Memory, regs: Regions, rings: seq<seq<int>>)
    requires Rings(mem, l.buckets, FreeMap(regs), rings) && Grown(mem, mem')
    ensures Rings(mem', l.buckets, FreeMap(regs), rings)
  {
    RingsFrame(mem, mem', l.buckets, FreeMap(regs), rings);
  }

  /** The memory after laying out the new block `[s, e)`, before its free region is listed. */
  function BlockMem(mem: Memory, s: int, e: int, next: int): (m: Memory)
    requires 0 < s && s + 3 * MIN_REGION <= e <= |mem|
    ensures |m| == |mem|
  {
    mem[e - 16 := MIN_REGION][e - 4 := MIN_REGION][s := MIN_REGION][s + 12 := MIN_REGION][s + 4 := next][s + 8 := e]
       [s + 16 := e - s - 32][e - 20 := e - s - 31]
  }

  lemma NewBlockShape(l: Layout, top: int, regs: Regions, s: int, e: int)
    requires Shape(l, top, regs) && Below(regs, s) && l.heapBase <= s && s % 4 == 0 && e % 4 == 0 &&
      s + 3 * MIN_REGION <= e <= top
    ensures Shape(l, top, NewBlock(regs, s, e))
  {
    hide HasNext, HasPrev, Disjoint, Coalesced, Aligned, NewBlock;
    TiledNewBlock(regs, l.heapBase, s, s, e);
    NewBlockAligned(regs, s, e);
    NewBlockCoalesced(regs, l.heapBase, s, e);
  }

  lemma NewBlockAligned(regs: Regions, s: int, e: int)
    requires Aligned(regs) && s % 4 == 0 && e % 4 == 0
    ensures Aligned(NewBlock(regs, s, e))
  {
    Mod4(e, s);
    Mod4(e - s, 32);
    Mod4(s, 16);
    Mod4(e, 16);
  }

  lemma NewBlockCoalesced(regs: Regions, lo: int, s: int, e: int)
    requires Sized(regs, lo, s) && HasNext(regs) && Coalesced(regs) && s + 3 * MIN_REGION <= e
    ensures Coalesced(NewBlock(regs, s, e))
  {
    var r := NewBlock(regs, s, e);
    forall a | a in r && r[a].kind.Free? && NextOf(r, a) in r
      ensures !r[NextOf(r, a)].kind.Free?
    {
      if a in regs { var n := NextOf(regs, a); }
    }
  }

  lemma NewBlockTags(mem: Memory, regs: Regions, s: int, e: int, next: int)
    requires Tagged(mem, regs) && Below(regs, s) && 0 < s && s + 3 * MIN_REGION <= e <= |mem|
    ensures Tagged(BlockMem(mem, s, e, next), NewBlock(regs, s, e))
    ensures PayloadsKept(mem, BlockMem(mem, s, e, next), regs) && SameOutside(mem, BlockMem(mem, s, e, next), s, e)
  {
    var m, r := BlockMem(mem, s, e, next), NewBlock(regs, s, e);
    forall a | a in r
      ensures TaggedAt(m, a, r[a])
    {
      if a in regs { TagOf(mem, regs, a); }
    }
  }

  lemma NewBlockFree(l: Layout, top: int, regs: Regions, s: int, e: int)
    requires Shape(l, top, regs) && Below(regs, s) && s + 3 * MIN_REGION <= e
    ensures FreeMap(NewBlock(regs, s, e)) == FreeMap(regs)[s + MIN_REGION := Slot(e - s - 2 * MIN_REGION)]
    ensures s + MIN_REGION !in FreeMap(regs)
    ensures forall n :: n in FreeMap(regs) ==> n + NODE_SIZE <= s
  {
    hide HasNext, HasPrev, Coalesced, Aligned, Disjoint;
    assert forall a :: a in regs ==> a + MIN_REGION <= s;
    NewBlockMap(regs, s, e);
  }

  lemma NewBlockMap(regs: Regions, s: int, e: int)
    requires s + 3 * MIN_REGION <= e && forall a :: a in regs ==> a + MIN_REGION <= s
    ensures FreeMap(NewBlock(regs, s, e)) == FreeMap(regs)[s + MIN_REGION := Slot(e - s - 2 * MIN_REGION)]
  {
    hide Slot;
    var r := NewBlock(regs, s, e);
    assert forall a :: a in regs ==> a in r && r[a] == regs[a];
    assert r.Keys == regs.Keys + {s, s + MIN_REGION, e - MIN_REGION};
  }

  lemma NewBlockRoots(mem: Memory, head: int, regs: Regions, blocks: seq<Block>, s: int, e: int)
    requires Roots(mem, head, regs, blocks) && Below(regs, s) && forall a :: a in regs ==> regs[a].size >= MIN_REGION
    requires 0 < s && s + 3 * MIN_REGION <= e && s + 8 < |mem| && mem[s + 4] == head && mem[s + 8] == e
    ensures Roots(mem, s, NewBlock(regs, s, e), [Block(s, e)] + blocks)
  {
    hide BlockOk, HasRoot, HasEnd;
    var r, bs := NewBlock(regs, s, e), [Block(s, e)] + blocks;
    forall k | 0 <= k < |bs|
      ensures BlockOk(mem, r, bs[k], NextRoot(bs, k)) && (k > 0 ==> bs[k].end <= s)
    {
      NewBlockOk(mem, head, regs, blocks, s, e, k);
    }
    forall a | a in r
      ensures r[a].kind.Root? ==> HasRoot(bs, a)
      ensures r[a].kind.End? ==> HasEnd(bs, a + MIN_REGION)
    {
      NewSentinel(regs, blocks, s, e, a);
    }
  }

  lemma NewBlockOk(mem: Memory, head: int, regs: Regions, blocks: seq<Block>, s: int, e: int, k: int)
    requires Roots(mem, head, regs, blocks) && Below(regs, s) && forall a :: a in regs ==> regs[a].size >= MIN_REGION
    requires 0 < s && s + 3 * MIN_REGION <= e && s + 8 < |mem| && mem[s + 4] == head && mem[s + 8] == e
    requires 0 <= k <= |blocks|
    ensures var bs := [Block(s, e)] + blocks;
      BlockOk(mem, NewBlock(regs, s, e), bs[k], NextRoot(bs, k)) && (k > 0 ==> bs[k].end <= s)
  {
    hide BlockOk, NewBlock, Below;
    var bs := [Block(s, e)] + blocks;
    if k > 0 {
      OldBlockOk(mem, regs, blocks[k - 1], NextRoot(blocks, k - 1), s, e);
    } else {
      FirstBlockOk(mem, regs, s, e, head);
    }
  }

  lemma OldBlockOk(mem: Memory, regs: Regions, b: Block, next: int, s: int, e: int)
    requires BlockOk(mem, regs, b, next) && Below(regs, s) && forall a :: a in regs ==> regs[a].size >= MIN_REGION
    requires s + 3 * MIN_REGION <= e
    ensures BlockOk(mem, NewBlock(regs, s, e), b, next) && b.end <= s
  {
  }

  lemma FirstBlockOk(mem: Memory, regs: Regions, s: int, e: int, head: int)
    requires 0 < s && s + 3 * MIN_REGION <= e && s + 8 < |mem| && mem[s + 4] == head && mem[s + 8] == e
    ensures BlockOk(mem, NewBlock(regs, s, e), Block(s, e), head)
  {
  }

  lemma NewSentinel(regs: Regions, blocks: seq<Block>, s: int, e: int, a: int)
    requires a in NewBlock(regs, s, e) && s + 3 * MIN_REGION <= e
    requires a in regs && regs[a].kind.Root? ==> HasRoot(blocks, a)
    requires a in regs && regs[a].kind.End? ==> HasEnd(blocks, a + MIN_REGION)
    ensures NewBlock(regs, s, e)[a].kind.Root? ==> HasRoot([Block(s, e)] + blocks, a)
    ensures NewBlock(regs, s, e)[a].kind.End? ==> HasEnd([Block(s, e)] + blocks, a + MIN_REGION)
  {
    var bs := [Block(s, e)] + blocks;
    assert bs[0] == Block(s, e);
    if a in regs && regs[a].kind.Root? {
      var k :| 0 <= k < |blocks| && blocks[k].root == a;
      assert bs[k + 1].root == a;
    }
    if a in regs && regs[a].kind.End? {
      var k :| 0 <= k < |blocks| && blocks[k].end == a + MIN_REGION;
      assert bs[k + 1].end == a + MIN_REGION;
    }
  }

  // ----- extending the latest block

  /** The free region at the new end of the block: the old end sentinel, or the region before it if free. */
  ghost function ClaimFrom(regs: Regions, e: int): int
    requires e in regs && PrevOf(regs, e) in regs
  {
    if regs[PrevOf(regs, e)].kind.Free? then PrevOf(regs, e) else e
  }

  /** `regs'` is `regs` with the block that ended in sentinel `e` extended to `top`. */
  ghost predicate Extends(regs: Regions, regs': Regions, e: int, top: int) {
    && e in regs && PrevOf(regs, e) in regs && ClaimFrom(regs, e) in regs
    && regs' == Claimed(regs, e, ClaimFrom(regs, e), top)
  }

  lemma ClaimGood(l: Layout, hi: int, regs: Regions, e: int, top: int)
    requires Shape(l, hi, regs) && e in regs && regs[e].kind.End? && Below(regs, e + MIN_REGION) &&
      e + 2 * MIN_REGION <= top
    ensures PrevOf(regs, e) in regs && CanClaim(regs, e, ClaimFrom(regs, e), top) && 0 < PrevOf(regs, e) &&
      PrevOf(regs, e) + MIN_REGION <= e
    ensures ClaimFrom(regs, e) == PrevOf(regs, e) || !regs[PrevOf(regs, e)].kind.Free?
  {
    var p := PrevOf(regs, e);
  }

  lemma ClaimShape(l: Layout, hi: int, regs: Regions, e: int, f: int, top: int)
    requires Shape(l, hi, regs) && CanClaim(regs, e, f, top) && top <= l.limit && top % 4 == 0 && l.heapEnd <= top
    requires PrevOf(regs, e) in regs && f == ClaimFrom(regs, e)
    ensures Shape(l, top, Claimed(regs, e, f, top))
  {
    hide HasNext, HasPrev, Disjoint, Coalesced, Aligned, Claimed;
    TiledClaimed(regs, l.heapBase, hi, e, f, top);
    ClaimAligned(regs, e, f, top);
    ClaimCoalesced(regs, l.heapBase, hi, e, f, top);
  }

  lemma ClaimAligned(regs: Regions, e: int, f: int, top: int)
    requires Aligned(regs) && f in regs && top % 4 == 0
    ensures Aligned(Claimed(regs, e, f, top))
  {
    Mod4(top, 16);
    Mod4(top - 16, f);
  }

  lemma ClaimCoalesced(regs: Regions, lo: int, hi: int, e: int, f: int, top: int)
    requires Sized(regs, lo, hi) && HasNext(regs) && HasPrev(regs) && Disjoint(regs) && Coalesced(regs) &&
      CanClaim(regs, e, f, top)
    requires PrevOf(regs, e) in regs && f == ClaimFrom(regs, e)
    ensures Coalesced(Claimed(regs, e, f, top))
  {
    var r := Claimed(regs, e, f, top);
    forall a | a in r && r[a].kind.Free? && NextOf(r, a) in r
      ensures !r[NextOf(r, a)].kind.Free?
    {
      if a != f { var n := NextOf(regs, a); }
    }
  }

  lemma ClaimFree(l: Layout, hi: int, regs: Regions, e: int, f: int, top: int)
    requires Shape(l, hi, regs) && CanClaim(regs, e, f, top)
    ensures FreeMap(Claimed(regs, e, f, top)) == (FreeMap(regs) - {f})[f := Slot(top - MIN_REGION - f)]
    ensures Survive(regs, Claimed(regs, e, f, top), {})
    ensures f in Claimed(regs, e, f, top) && Claimed(regs, e, f, top)[f].size == top - MIN_REGION - f &&
      Claimed(regs, e, f, top)[f].kind.Free?
  {
    hide Shape, Slot, Survive, HasNext, HasPrev;
    ClaimKept(l, hi, regs, e, f, top);
    ClaimSurvives(l, hi, regs, e, f, top);
    var r := Claimed(regs, e, f, top);
    assert FreeMap(r) == (FreeMap(regs) - {f})[f := Slot(top - MIN_REGION - f)];
  }

  /** A claim changes the free regions at `f` only. */
  lemma ClaimKept(l: Layout, hi: int, regs: Regions, e: int, f: int, top: int)
    requires Shape(l, hi, regs) && CanClaim(regs, e, f, top)
    ensures var r := Claimed(regs, e, f, top);
      && f in r && r[f].kind.Free? && r[f].size == top - MIN_REGION - f
      && (forall a :: a != f ==> ((a in r && r[a].kind.Free?) <==> (a in regs && regs[a].kind.Free?)))
      && (forall a :: a != f && a in regs && regs[a].kind.Free? ==> a in r && r[a].size == regs[a].size)
  {
    hide HasNext, HasPrev, Coalesced, Aligned;
  }

  lemma ClaimSurvives(l: Layout, hi: int, regs: Regions, e: int, f: int, top: int)
    requires Shape(l, hi, regs) && CanClaim(regs, e, f, top)
    ensures Survive(regs, Claimed(regs, e, f, top), {})
  {
    hide HasNext, HasPrev, Coalesced, Aligned;
  }

  lemma ClaimTags(mem: Memory, regs: Regions, e: int, f: int, top: int)
    requires Tagged(mem, regs) && Disjoint(regs) && CanClaim(regs, e, f, top) && top <= |mem| && 0 <= f
    requires mem[top - 16] == MIN_REGION && mem[top - 4] == MIN_REGION
    ensures var m := mem[f := top - MIN_REGION - f][top - 20 := top - MIN_REGION - f + 1];
      Tagged(m, Claimed(regs, e, f, top)) && PayloadsKept(mem, m, regs) && SameOutside(mem, m, f, top)
  {
    hide Tagged, Disjoint, CanClaim, PayloadsKept;
    ClaimAbove(mem, regs, e, f, top);
    var m := mem[f := top - MIN_REGION - f][top - 20 := top - MIN_REGION - f + 1];
    var r := Claimed(regs, e, f, top);
    forall a | a in r
      ensures TaggedAt(m, a, r[a])
    {
      if a in regs && a != f && a != e { TagOf(mem, regs, a); }
    }
    assert Tagged(m, r) by { TaggedAll(m, r); }
    BelowKept(mem, m, regs, f);
  }

  lemma TaggedAll(mem: Memory, regs: Regions)
    requires forall a :: a in regs ==> TaggedAt(mem, a, regs[a])
    ensures Tagged(mem, regs)
  {
  }

  /** All other regions are below the one that grows, and no payload of a program is above it. */
  lemma ClaimAbove(mem: Memory, regs: Regions, e: int, f: int, top: int)
    requires Tagged(mem, regs) && Disjoint(regs) && CanClaim(regs, e, f, top)
    ensures f in regs && f <= e && e + 2 * MIN_REGION <= top
    ensures forall a :: a in regs && a != e && a != f ==> a + regs[a].size <= f
    ensures forall a :: a in regs && (regs[a].kind.Used? || regs[a].kind.Root?) ==> a + regs[a].size <= f
  {
    forall a | a in regs && a != e && a != f
      ensures a + regs[a].size <= f
    {
      TagOf(mem, regs, a);
      TagOf(mem, regs, e);
    }
  }

  lemma BelowKept(mem: Memory, m: Memory, regs: Regions, f: int)
    requires |m| == |mem| && forall w :: 0 <= w < |mem| && w < f ==> m[w] == mem[w]
    requires forall a :: a in regs && (regs[a].kind.Used? || regs[a].kind.Root?) ==> a + regs[a].size <= f
    ensures PayloadsKept(mem, m, regs)
  {
  }

  /** The new end sentinel and the block's new end pointer, above and beside all tags. */
  function EndMem(mem: Memory, head: int, top: int): (m: Memory)
    requires 0 <= head && head + 8 < |mem| && 16 <= top <= |mem|
    ensures |m| == |mem|
  {
    mem[top - 16 := MIN_REGION][top - 4 := MIN_REGION][head + 8 := top]
  }

  lemma EndMemTags(mem: Memory, head: int, top: int)
    requires 0 <= head && head + 16 <= top - 16 && top <= |mem|
    ensures EndMem(mem, head, top)[top - 16] == MIN_REGION && EndMem(mem, head, top)[top - 4] == MIN_REGION
  {
  }

  lemma EndStep(l: Layout, mem: Memory, regs: Regions, rings: seq<seq<int>>, head: int, e: int, top: int)
    requires Shape(l, |mem|, regs) && Tagged(mem, regs) && Rings(mem, l.buckets, FreeMap(regs), rings)
    requires head in regs && regs[head].kind.Root? && Below(regs, e + MIN_REGION) &&
      e + 2 * MIN_REGION <= top <= |mem| && e in regs
    ensures 0 < head && head + 8 < |mem|
    ensures Tagged(EndMem(mem, head, top), regs) && Rings(EndMem(mem, head, top), l.buckets, FreeMap(regs), rings)
    ensures PayloadsKept(mem, EndMem(mem, head, top), regs - {head})
    ensures EndMem(mem, head, top)[head + 4] == mem[head + 4]
  {
    hide Rings, HasNext, HasPrev, Coalesced, Aligned;
    EndTags(l, mem, regs, head, e, top);
    EndRings(l, mem, regs, rings, head, e, top);
  }

  lemma EndTags(l: Layout, mem: Memory, regs: Regions, head: int, e: int, top: int)
    requires Sized(regs, l.heapBase, |mem|) && Disjoint(regs) && Tagged(mem, regs) && 0 < l.heapBase
    requires head in regs && regs[head].kind.Root? && Below(regs, e + MIN_REGION) &&
      e + 2 * MIN_REGION <= top <= |mem| && e in regs
    ensures 0 < head && head + 8 < |mem|
    ensures Tagged(EndMem(mem, head, top), regs)
    ensures PayloadsKept(mem, EndMem(mem, head, top), regs - {head})
  {
    var m := EndMem(mem, head, top);
    forall a | a in regs ensures TaggedAt(m, a, regs[a]) { TagOf(mem, regs, a); }
  }

  lemma EndRings(l: Layout, mem: Memory, regs: Regions, rings: seq<seq<int>>, head: int, e: int, top: int)
    requires LayoutOk(l) && Sized(regs, l.heapBase, |mem|) && Disjoint(regs) &&
      Rings(mem, l.buckets, FreeMap(regs), rings)
    requires head in regs && regs[head].kind.Root? && Below(regs, e + MIN_REGION) &&
      e + 2 * MIN_REGION <= top <= |mem| && e in regs
    ensures Rings(EndMem(mem, head, top), l.buckets, FreeMap(regs), rings)
  {
    var m1 := mem[top - 16 := MIN_REGION][top - 4 := MIN_REGION];
    WindowKeepsRings(mem, m1, l.buckets, FreeMap(regs), rings, top - 16, top);
    WindowKeepsRings(m1, EndMem(mem, head, top), l.buckets, FreeMap(regs), rings, head, head + regs[head].size);
  }

  /** The list of blocks after the latest block has been extended. */
  lemma ClaimRoots(mem: Memory, mem': Memory, head: int, regs: Regions, blocks: seq<Block>, e: int, f: int, top: int)
    requires Roots(mem, head, regs, blocks) && |blocks| > 0 && e == blocks[0].end - MIN_REGION &&
      CanClaim(regs, e, f, top)
    requires PayloadsKept(mem, mem', regs - {head}) && head + 8 < |mem'| && mem'[head + 4] == mem[head + 4] &&
      mem'[head + 8] == top
    requires Disjoint(regs) && forall a :: a in regs ==> regs[a].size >= MIN_REGION
    ensures Roots(mem', head, Claimed(regs, e, f, top), [Block(head, top)] + blocks[1..])
  {
    hide BlockOk, HasRoot, HasEnd, Claimed, PayloadsKept;
    var r, bs := Claimed(regs, e, f, top), [Block(head, top)] + blocks[1..];
    forall k | 0 <= k < |bs|
      ensures BlockOk(mem', r, bs[k], NextRoot(bs, k))
    {
      assert BlockOk(mem, regs, blocks[k], NextRoot(blocks, k));
      if k > 0 {
        assert bs[k] == blocks[k];
        assert BlockOk(mem, regs, blocks[0], NextRoot(blocks, 0));
        LaterBlock(mem, mem', regs, blocks[k], NextRoot(blocks, k), head, e, f, top, blocks[0], NextRoot(blocks, 0));
      } else {
        HeadBlock(mem, mem', regs, blocks[0], NextRoot(blocks, 0), e, f, top);
      }
    }
    forall a | a in r
      ensures r[a].kind.Root? ==> HasRoot(bs, a)
      ensures r[a].kind.End? ==> HasEnd(bs, a + MIN_REGION)
      ensures a + r[a].size <= top
    {
      ClaimSentinel(regs, blocks, head, e, f, top, a);
    }
  }

  lemma HeadBlock(mem: Memory, mem': Memory, regs: Regions, b: Block, next: int, e: int, f: int, top: int)
    requires BlockOk(mem, regs, b, next) && CanClaim(regs, e, f, top) && e == b.end - MIN_REGION
    requires b.root + 8 < |mem'| && mem'[b.root + 4] == mem[b.root + 4] && mem'[b.root + 8] == top
    ensures BlockOk(mem', Claimed(regs, e, f, top), Block(b.root, top), next)
  {
  }

  lemma LaterBlock(mem: Memory, mem': Memory, regs: Regions, b: Block, next: int, head: int, e: int, f: int, top: int,
      first: Block, second: int)
    requires BlockOk(mem, regs, b, next) && BlockOk(mem, regs, first, second) && CanClaim(regs, e, f, top) &&
      first.root == head && e == first.end - MIN_REGION
    requires b.end <= first.root
    requires PayloadsKept(mem, mem', regs - {head})
    ensures BlockOk(mem', Claimed(regs, e, f, top), b, next)
  {
    var w1, w2 := b.root + 4, b.root + 8;
    assert b.root in regs - {head};
    assert mem'[w1] == mem[w1] && mem'[w2] == mem[w2];
  }

  lemma ClaimSentinel(regs: Regions, blocks: seq<Block>, head: int, e: int, f: int, top: int, a: int)
    requires CanClaim(regs, e, f, top) && |blocks| > 0 && blocks[0] == Block(head, e + MIN_REGION)
    requires a in Claimed(regs, e, f, top)
    requires a in regs && regs[a].kind.Root? ==> HasRoot(blocks, a)
    requires a in regs && regs[a].kind.End? ==> HasEnd(blocks, a + MIN_REGION)
    ensures var r, bs := Claimed(regs, e, f, top), [Block(head, top)] + blocks[1..];
      && (r[a].kind.Root? ==> HasRoot(bs, a)) && (r[a].kind.End? ==> HasEnd(bs, a + MIN_REGION)) && a + r[a].size <= top
  {
    var bs := [Block(head, top)] + blocks[1..];
    assert bs[0] == Block(head, top);
    if a in regs && regs[a].kind.Root? {
      var k :| 0 <= k < |blocks| && blocks[k].root == a;
      assert bs[k].root == a;
    }
    if a in regs && regs[a].kind.End? && a != e {
      var k :| 0 <= k < |blocks| && blocks[k].end == a + MIN_REGION;
      assert bs[k].end == a + MIN_REGION;
    }
  }

  lemma BlockAbove(l: Layout, top: int, regs: Regions, s: int, e: int)
    requires Shape(l, top, regs) && l.heapBase <= s
    ensures 0 < s
  {
  }

  /** The state after laying out a new block, before its free region is listed. */
  lemma BlockStep(l: Layout, mem: Memory, regs: Regions, rings: seq<seq<int>>, s: int, e: int, next: int)
    requires Shape(l, |mem|, regs) && Tagged(mem, regs) && Rings(mem, l.buckets, FreeMap(regs), rings)
    requires Below(regs, s) && l.heapBase <= s && 0 < s && s % 4 == 0 && e % 4 == 0 && s + 3 * MIN_REGION <= e <= |mem|
    ensures var mem', regs' := BlockMem(mem, s, e, next), NewBlock(regs, s, e);
      && Shape(l, |mem'|, regs') && Tagged(mem', regs') && Rings(mem', l.buckets, FreeMap(regs), rings)
      && s + MIN_REGION in regs'
      && FreeMap(regs') == FreeMap(regs)[s + MIN_REGION := Slot(regs'[s + MIN_REGION].size)]
      && s + MIN_REGION !in FreeMap(regs) && regs'[s + MIN_REGION].kind.Free?
      && PayloadsKept(mem, mem', regs)
  {
    hide Tagged, Rings, PayloadsKept, HasNext, HasPrev, Disjoint, Coalesced, Aligned, Slot, BlockMem;
    NewBlockShape(l, |mem|, regs, s, e);
    NewBlockTags(mem, regs, s, e, next);
    NewBlockFree(l, |mem|, regs, s, e);
    WindowKeepsRings(mem, BlockMem(mem, s, e, next), l.buckets, FreeMap(regs), rings, s, e);
  }

  lemma BlockFinish(l: Layout, m0: Memory, m2: Memory, head: int, regs: Regions, blocks: seq<Block>, s: int, e: int)
    requires Shape(l, |m0|, regs) && Roots(m0, head, regs, blocks) && Below(regs, s) && 0 < s &&
      s + 3 * MIN_REGION <= e <= |m0|
    requires PayloadsKept(m0, BlockMem(m0, s, e, head), regs)
    requires PayloadsKept(BlockMem(m0, s, e, head), m2, NewBlock(regs, s, e))
    ensures PayloadsKept(m0, m2, regs) && Roots(m2, s, NewBlock(regs, s, e), [Block(s, e)] + blocks)
  {
    hide Roots, HasNext, HasPrev, Disjoint, Coalesced, Aligned;
    var none: set<int> := {};
    assert regs - none == regs;
    NewBlockSurvive(l, |m0|, regs, s, e);
    PayloadsTrans(m0, BlockMem(m0, s, e, head), m2, regs, NewBlock(regs, s, e), none);
    RootsKept(m0, m2, head, regs, blocks);
    RootWords(m0, m2, regs, s, e, head);
    NewBlockRoots(m2, head, regs, blocks, s, e);
  }

  lemma NewBlockSurvive(l: Layout, top: int, regs: Regions, s: int, e: int)
    requires Shape(l, top, regs) && Below(regs, s) && s + 3 * MIN_REGION <= e
    ensures Survive(regs, NewBlock(regs, s, e), {})
  {
  }

  lemma RootWords(m0: Memory, m2: Memory, regs: Regions, s: int, e: int, head: int)
    requires 0 < s && s + 3 * MIN_REGION <= e <= |m0|
    requires PayloadsKept(BlockMem(m0, s, e, head), m2, NewBlock(regs, s, e))
    ensures s + 8 < |m2| && m2[s + 4] == head && m2[s + 8] == e
  {
    var m1, r := BlockMem(m0, s, e, head), NewBlock(regs, s, e);
    assert s in r && r[s].kind.Root? && r[s].size == MIN_REGION;
    assert m1[s + 4] == head && m1[s + 8] == e;
    var w1, w2 := s + 4, s + 8;
    assert m2[w1] == m1[w1] && m2[w2] == m1[w2];
  }

  /** Where the latest block ends, and what its sentinel looks like. */
  lemma LatestBlock(l: Layout, mem: Memory, head: int, regs: Regions, blocks: seq<Block>)
    requires Shape(l, |mem|, regs) && Roots(mem, head, regs, blocks)
    ensures (head == 0) == (|blocks| == 0)
    ensures head == 0 ==> regs == map[]
    ensures head != 0 ==>
      && 0 < head && head + 8 < |mem| && head in regs && regs[head].kind.Root? &&
        mem[head + 8] == blocks[0].end <= |mem|
      && blocks[0].end - MIN_REGION in regs && regs[blocks[0].end - MIN_REGION].kind.End?
      && Below(regs, blocks[0].end) && head == blocks[0].root
  {
    hide HasNext, HasPrev, Disjoint, Coalesced, Aligned, Below;
    if |blocks| > 0 { assert BlockOk(mem, regs, blocks[0], NextRoot(blocks, 0)); }
  }

  /** The state after the tags of the extended block have been written. */
  lemma ClaimStep(l: Layout, mem: Memory, regs: Regions, rings: seq<seq<int>>, e: int, f: int, top: int)
    requires Shape(l, |mem|, regs) && top == |mem| && Tagged(mem, regs)
    requires CanClaim(regs, e, f, top) && PrevOf(regs, e) in regs && f == ClaimFrom(regs, e) && 0 <= f
    requires Rings(mem, l.buckets, FreeMap(regs) - {f}, rings)
    requires mem[top - 16] == MIN_REGION && mem[top - 4] == MIN_REGION
    ensures var mem', regs' := mem[f := top - MIN_REGION - f][top - 20 := top - MIN_REGION - f + 1],
      Claimed(regs, e, f, top);
      && Shape(l, top, regs') && Tagged(mem', regs') && PayloadsKept(mem, mem', regs)
      && Rings(mem', l.buckets, FreeMap(regs) - {f}, rings)
      && f in regs' && regs'[f].kind.Free? && f !in FreeMap(regs) - {f}
      && FreeMap(regs') == (FreeMap(regs) - {f})[f := Slot(regs'[f].size)]
      && Survive(regs, regs', {})
  {
    hide Tagged, Rings, PayloadsKept, HasNext, HasPrev, Coalesced, Aligned, Slot, Survive;
    ClaimShape(l, top, regs, e, f, top);
    ClaimTags(mem, regs, e, f, top);
    ClaimFree(l, top, regs, e, f, top);
    ClaimRings(l, top, mem, mem[f := top - MIN_REGION - f][top - 20 := top - MIN_REGION - f + 1], regs, rings, e, f,
        top);
  }

  lemma ClaimRings(l: Layout, hi: int, mem: Memory, mem': Memory, regs: Regions, rings: seq<seq<int>>, e: int, f: int,
      top: int)
    requires Shape(l, hi, regs) && CanClaim(regs, e, f, top)
    requires Rings(mem, l.buckets, FreeMap(regs) - {f}, rings) && SameOutside(mem, mem', f, top)
    ensures Rings(mem', l.buckets, FreeMap(regs) - {f}, rings)
  {
    hide Rings, SameOutside, HasNext, HasPrev, Coalesced, Aligned;
    WindowKeepsRings(mem, mem', l.buckets, FreeMap(regs) - {f}, rings, f, top);
  }

  /** What extending the latest block has kept. */
  lemma ClaimFinish(l: Layout, m0: Memory, m2: Memory, m3: Memory, m4: Memory, head: int, regs: Regions,
      blocks: seq<Block>, e: int, f: int, top: int)
    requires Shape(l, |m0|, regs) && Roots(m0, head, regs, blocks) && |blocks| > 0 && e == blocks[0].end - MIN_REGION
    requires CanClaim(regs, e, f, top) && top <= |m0| && 0 < head && head in regs && regs[head].kind.Root? &&
      head + 8 < |m0|
    requires PayloadsKept(m0, EndMem(m0, head, top), regs - {head}) && EndMem(m0, head, top)[head + 4] == m0[head + 4]
    requires PayloadsKept(EndMem(m0, head, top), m2, regs) && PayloadsKept(m2, m3, regs) &&
      PayloadsKept(m3, m4, Claimed(regs, e, f, top))
    requires Survive(regs, Claimed(regs, e, f, top), {})
    ensures PayloadsKept(m0, m4, regs - {head})
    ensures Roots(m4, head, Claimed(regs, e, f, top), [Block(head, top)] + blocks[1..])
  {
    hide Roots, PayloadsKept, Survive, HasNext, HasPrev, Coalesced, Aligned, Claimed, EndMem;
    var none: set<int> := {};
    var m1 := EndMem(m0, head, top);
    assert regs - none == regs;
    PayloadsChain(m1, m2, m3, regs);
    PayloadsTrans(m1, m3, m4, regs, Claimed(regs, e, f, top), none);
    PayloadsWeaken(m1, m4, regs, {head});
    PayloadsChain(m0, m1, m4, regs - {head});
    HeadWords(m0, m4, regs, head, top);
    ClaimRoots(m0, m4, head, regs, blocks, e, f, top);
  }

  lemma HeadWords(m0: Memory, m4: Memory, regs: Regions, head: int, top: int)
    requires 0 < head && head + 8 < |m0| && 16 <= top <= |m0| && head in regs && regs[head].kind.Root? &&
      regs[head].size >= MIN_REGION
    requires PayloadsKept(EndMem(m0, head, top), m4, regs)
    ensures head + 8 < |m4| && m4[head + 4] == EndMem(m0, head, top)[head + 4] && m4[head + 8] == top
  {
    var w1, w2 := head + 4, head + 8;
    assert m4[w1] == EndMem(m0, head, top)[w1] && m4[w2] == EndMem(m0, head, top)[w2];
  }

  lemma PayloadsWeaken(mem: Memory, mem': Memory, regs: Regions, gone: set<int>)
    requires PayloadsKept(mem, mem', regs)
    ensures PayloadsKept(mem, mem', regs - gone)
  {
  }

  lemma BlockRoom(l: Layout, mem: Memory, head: int, regs: Regions, blocks: seq<Block>)
    requires Roots(mem, head, regs, blocks) && |blocks| > 0
    ensures head + 2 * MIN_REGION <= blocks[0].end
  {
    assert BlockOk(mem, regs, blocks[0], NextRoot(blocks, 0));
  }

  lemma NotFree(regs: Regions, f: int)
    requires f in regs && !regs[f].kind.Free?
    ensures FreeMap(regs) - {f} == FreeMap(regs)
  {
  }

  /** Relinking leaves the memory above all regions alone. */
  lemma AboveKept(l: Layout, mem: Memory, mem': Memory, regs: Regions, off: set<int>, e: int, w: int)
    requires Shape(l, |mem|, regs) && Below(regs, e + MIN_REGION) && e in regs && e + MIN_REGION <= w < |mem|
    requires LinksOnly(mem, mem', l.buckets, FreeMap(regs) - off)
    ensures mem'[w] == mem[w]
  {
  }

  /** No used region is new. */
  ghost predicate OnlyOld(regs: Regions, regs': Regions) {
    forall a :: a in regs' && regs'[a].kind.Used? ==> a in regs && regs[a].kind.Used?
  }

  lemma EmptyHeap(l: Layout, top: int, regs: Regions)
    requires Shape(l, top, regs) && regs == map[]
    ensures 0 < l.heapBase && Below(regs, l.heapBase) && l.heapBase % 4 == 0 && l.heapEnd % 4 == 0 && l.heapEnd <= top
  {
  }

  lemma BlockSurvives(l: Layout, top: int, regs: Regions, s: int, e: int)
    requires Shape(l, top, regs) && Below(regs, s) && s + 3 * MIN_REGION <= e
    ensures Survive(regs, NewBlock(regs, s, e), {}) && OnlyOld(regs, NewBlock(regs, s, e))
  {
  }

  lemma ExtendSurvives(l: Layout, hi: int, regs: Regions, e: int, top: int, regs': Regions)
    requires Shape(l, hi, regs) && e in regs && regs[e].kind.End? && Below(regs, e + MIN_REGION) &&
      e + 2 * MIN_REGION <= top
    requires Extends(regs, regs', e, top)
    ensures Survive(regs, regs', {}) && OnlyOld(regs, regs')
  {
    ClaimGood(l, hi, regs, e, top);
    ClaimFree(l, hi, regs, e, ClaimFrom(regs, e), top);
  }

  lemma PageMultiple(n: nat)
    ensures AlignUp(n, PAGE_SIZE) % PAGE_SIZE == 0 && AlignUp(n, PAGE_SIZE) % 4 == 0
  {
    AlignUpMultiple(n, PAGE_SIZE);
    Mod16Trans(AlignUp(n, PAGE_SIZE), PAGE_SIZE);
  }

  /** The memory still ends on a word boundary, above all regions. */
  lemma GrowTop(l: Layout, top: int, regs: Regions, top': int)
    requires Shape(l, top, regs) && (top' - top) % 4 == 0
    ensures top % 4 == 0 && top' % 4 == 0 && Below(regs, top) && 0 < l.heapBase <= top
  {
    Mod4(top' - top, top);
  }

  // ----- what a client sees

  /** The allocations in `regs`, except for `gone`, are still there with their contents and at least
      their size; every other one in `regs'` is in `added`. */
  ghost predicate ClientSafe(mem: Memory, regs: Regions, mem': Memory, regs': Regions, gone: set<int>,
      added: set<int>) {
    && |mem| <= |mem'|
    && (forall a :: a in regs && regs[a].kind.Used? && a !in gone ==> KeptAt(mem, regs, mem', regs', a))
    && (forall a :: a in regs' && regs'[a].kind.Used? && a !in added ==> a in regs && regs[a].kind.Used? && a !in gone)
  }

  ghost predicate KeptAt(mem: Memory, regs: Regions, mem': Memory, regs': Regions, a: int)
    requires a in regs
  {
    && a in regs' && regs'[a].kind.Used? && regs[a].size <= regs'[a].size
    && PrefixKept(mem, mem', a, regs[a].size)
  }

  lemma SafeRefl(mem: Memory, mem': Memory, regs: Regions)
    requires PayloadsKept(mem, mem', regs)
    ensures ClientSafe(mem, regs, mem', regs, {}, {})
  {
  }

  lemma SafeTrans(m0: Memory, r0: Regions, m1: Memory, r1: Regions, m2: Memory, r2: Regions, gone: set<int>,
      added: set<int>)
    requires ClientSafe(m0, r0, m1, r1, {}, {}) && ClientSafe(m1, r1, m2, r2, gone, added)
    ensures ClientSafe(m0, r0, m2, r2, gone, added)
  {
    forall a | a in r0 && r0[a].kind.Used? && a !in gone
      ensures KeptAt(m0, r0, m2, r2, a)
    {
      KeptTrans(m0, r0, m1, r1, m2, r2, a);
    }
  }

  lemma KeptTrans(m0: Memory, r0: Regions, m1: Memory, r1: Regions, m2: Memory, r2: Regions, a: int)
    requires a in r0 && a in r1 && KeptAt(m0, r0, m1, r1, a) && KeptAt(m1, r1, m2, r2, a)
    ensures KeptAt(m0, r0, m2, r2, a)
  {
  }

  lemma SafeFrom(mem: Memory, regs: Regions, mem': Memory, regs': Regions, gone: set<int>, root: set<int>,
      added: set<int>)
    requires PayloadsKept(mem, mem', regs - (gone + root)) && Survive(regs, regs', gone)
    requires forall a :: a in root && a in regs ==> !regs[a].kind.Used?
    requires forall a :: a in regs' && regs'[a].kind.Used? && a !in added ==>
      && a in regs && regs[a].kind.Used?
      && a !in gone
    ensures ClientSafe(mem, regs, mem', regs', gone, added)
  {
    forall a | a in regs && regs[a].kind.Used? && a !in gone
      ensures KeptAt(mem, regs, mem', regs', a)
    {
      assert a in regs - (gone + root);
    }
  }

  /** The new allocation at `ptr`: aligned, large enough, with less than a region to spare, and not one
      that was there before. */
  ghost predicate Placed(regs: Regions, regs': Regions, ptr: int, alignment: nat, size: int) {
    && ptr > 4 && alignment > 0 && ptr % alignment == 0
    && ptr - 4 in regs' && regs'[ptr - 4].kind.Used?
    && size + HEADER <= regs'[ptr - 4].size < size + HEADER + MIN_REGION
    && (ptr - 4 in regs ==> !regs[ptr - 4].kind.Used?)
  }

  lemma AllocatedSafe(l: Layout, mem: Memory, mem': Memory, regs: Regions, f: int, ptr: int, alignment: nat, size: int)
    requires Shape(l, |mem|, regs) && f in regs && regs[f].kind.Free? && alignment > 0 &&
      ptr == AlignUp(f + 4, alignment) && f > 0
    requires CanBump(|mem|, regs, f, ptr - 4) && 0 < size && ptr + 4 + size <= NextOf(regs, f)
    requires PayloadsKept(mem, mem', regs) && Survive(regs, Allocated(regs, f, ptr - 4, size), {})
    ensures Placed(regs, Allocated(regs, f, ptr - 4, size), ptr, alignment, size)
    ensures ClientSafe(mem, regs, mem', Allocated(regs, f, ptr - 4, size), {}, {ptr - 4})
  {
    hide Shape, PayloadsKept, Survive, KeptAt, Edit, AlignUp, ClientSafe;
    AlignUpMultiple(f + 4, alignment);
    AllocatedUsed(l, |mem|, regs, f, ptr - 4, size);
    var none: set<int> := {};
    assert regs - (none + none) == regs;
    SafeFrom(mem, regs, mem', Allocated(regs, f, ptr - 4, size), none, none, {ptr - 4});
  }

  lemma AllocatedUsed(l: Layout, top: int, regs: Regions, f: int, f': int, size: int)
    requires Shape(l, top, regs) && f in regs && regs[f].kind.Free? && CanBump(top, regs, f, f') && 0 < size &&
      f' + HEADER + size <= NextOf(regs, f)
    ensures var r := Allocated(regs, f, f', size);
      && f' in r && r[f'].kind.Used? && size + HEADER <= r[f'].size < size + HEADER + MIN_REGION
      && (f' in regs ==> !regs[f'].kind.Used?)
      && (forall a :: a in r && r[a].kind.Used? && a != f' ==> a in regs && regs[a].kind.Used?)
  {
    hide HasNext, HasPrev, Coalesced, Aligned;
    BumpedAt(regs, f, f');
  }

  // ----- the search

  lemma SlotOf(regs: Regions, f: int)
    requires f in regs && regs[f].kind.Free?
    ensures f in FreeMap(regs) && FreeMap(regs)[f] == Slot(regs[f].size)
  {
  }

  lemma FreeSpacedShape(l: Layout, top: int, regs: Regions)
    requires Shape(l, top, regs)
    ensures Spaced(l.buckets, FreeMap(regs), top) && FreeIn(FreeMap(regs), regs)
  {
    FreeSpaced(l, top, regs);
  }

  lemma InLimit(l: Layout, top: int, regs: Regions)
    requires Shape(l, top, regs)
    ensures top <= l.limit < WORD
  {
  }

  /** The next set bit of `used >> i` names a bucket, and shifting it down keeps the relation. */
  lemma MaskStep(used: nat, rings: seq<seq<int>>, i: int)
    requires Masked(used, rings) && 0 <= i <= NUM_RINGS && Shr(used, i) > 0
    ensures var c := Ctz(Shr(used, i));
      && i + c < NUM_RINGS && Bit(used, i + c)
      && Shr(Shr(used, i), c) == Shr(used, i + c) && Shr(used, i + c) % 2 == 1
      && 0 < Shr(used, i + c) <= Shr(used, i)
  {
    var m := Shr(used, i);
    CtzLowest(m);
    ShrBits(used, i, Ctz(m));
    ShrAdd(used, i, Ctz(m));
    ShrLess(m, Ctz(m));
  }

  lemma {:induction false} ShrLess(m: nat, i: nat)
    ensures Shr(m, i) <= m
    decreases i
  {
    if i > 0 { ShrLess(m / 2, i - 1); }
  }

  /** Clearing the bit of an empty list: the mask still covers all others. */
  lemma ClearStale(used: nat, rings: seq<seq<int>>, i: int)
    requires Masked(used, rings) && 0 <= i < |rings| && |rings[i]| <= 2
    ensures Masked(ClearBit(used, i), rings) && Shr(ClearBit(used, i), i) == Shr(used, i) - Shr(used, i) % 2
  {
    forall j: nat ensures Bit(ClearBit(used, i), j) == (j != i && Bit(used, j)) { ClearBitBits(used, i, j); }
    ClearBitShr(used, i);
  }

  /** The first node of list `i`: a free region of that size class, or the sentinel of an empty list. */
  lemma FirstOf(l: Layout, mem: Memory, regs: Regions, rings: seq<seq<int>>, i: int)
    requires Shape(l, |mem|, regs) && Rings(mem, l.buckets, FreeMap(regs), rings) && 0 <= i < NUM_RINGS
    ensures |rings| == NUM_RINGS && |rings[i]| >= 2
    ensures var s := Sentinel(l.buckets, i);
      && 0 < s && s + 8 < |mem| && mem[s + 8] == rings[i][1]
      && (mem[s + 8] == s <==> |rings[i]| == 2)
      && (mem[s + 8] != s ==>
        && mem[s + 8] > 0 && mem[s + 8] in regs && regs[mem[s + 8]].kind.Free?
        && Slot(regs[mem[s + 8]].size) == i)
  {
    hide Shape, Slot;
    NodeIs(l, mem, regs, rings, i, 1);
    assert RingAt(mem, Sentinel(l.buckets, i), rings[i]) && Linked(mem, rings[i][0], rings[i][1]);
  }

  /** The `k`-th node of list `i` and its successor. */
  lemma NodeIs(l: Layout, mem: Memory, regs: Regions, rings: seq<seq<int>>, i: int, k: int)
    requires Rings(mem, l.buckets, FreeMap(regs), rings) && 0 <= i < NUM_RINGS && 0 < k < |rings[i]|
    ensures rings[i][k] == Sentinel(l.buckets, i) <==> k == |rings[i]| - 1
    ensures k < |rings[i]| - 1 ==>
      && rings[i][k] in regs && regs[rings[i][k]].kind.Free? && Slot(regs[rings[i][k]].size) == i
      && 0 < rings[i][k] && rings[i][k] + 8 < |mem| && mem[rings[i][k] + 8] == rings[i][k + 1]
  {
    hide Slot;
    var f := rings[i];
    assert RingAt(mem, Sentinel(l.buckets, i), f);
    if k < |f| - 1 {
      assert f[k] in FreeMap(regs) && FreeMap(regs)[f[k]] == i;
      assert Linked(mem, f[k], f[k + 1]);
    }
  }

  /** Would the request fit into the free region `f`? */
  ghost predicate Fits(regs: Regions, f: int, alignment: nat, size: int)
    requires f in regs && f > 0 && alignment > 0
  {
    AlignUp(f + 4, alignment) + size <= NextOf(regs, f) - 4
  }

  /** No region of list `i` from position `j` up to `k` fits. */
  ghost predicate NoFit(regs: Regions, rings: seq<seq<int>>, i: int, j: int, k: int, alignment: nat, size: int) {
    && 0 <= i < |rings| && 0 < j <= k < |rings[i]| && alignment > 0
    && forall n :: j <= n < k ==> rings[i][n] in regs && rings[i][n] > 0 && !Fits(regs, rings[i][n], alignment, size)
  }

  lemma NoFitMore(regs: Regions, rings: seq<seq<int>>, i: int, j: int, k: int, alignment: nat, size: int)
    requires NoFit(regs, rings, i, j, k, alignment, size) && k + 1 < |rings[i]|
    requires rings[i][k] in regs && rings[i][k] > 0 && !Fits(regs, rings[i][k], alignment, size)
    ensures NoFit(regs, rings, i, j, k + 1, alignment, size)
  {
  }

  lemma NoFitJoin(regs: Regions, rings: seq<seq<int>>, i: int, j: int, k: int, m: int, alignment: nat, size: int)
    requires NoFit(regs, rings, i, j, k, alignment, size) && NoFit(regs, rings, i, k, m, alignment, size)
    ensures NoFit(regs, rings, i, j, m, alignment, size)
  {
  }

  /** List `i` was looked at: it is empty, or the region at its end does not fit, which is where a
      region goes that was tried in vain. */
  ghost predicate Tried(regs: Regions, rings: seq<seq<int>>, used: nat, i: int, alignment: nat, size: int) {
    && 0 <= i < |rings| && alignment > 0 && (Bit(used, i) ==> |rings[i]| > 2)
    && (|rings[i]| > 2 ==> var a := rings[i][|rings[i]| - 2]; a in regs && a > 0 && !Fits(regs, a, alignment, size))
  }

  ghost predicate TriedFrom(regs: Regions, rings: seq<seq<int>>, used: nat, i: int, j: int, alignment: nat, size: int) {
    forall n :: i <= n < j ==> Tried(regs, rings, used, n, alignment, size)
  }

  /** Only list `i` changed. */
  ghost predicate OnlyList(rings: seq<seq<int>>, rings': seq<seq<int>>, i: int) {
    |rings'| == |rings| && forall n :: 0 <= n < |rings| && n != i ==> rings'[n] == rings[n]
  }

  /** Lists whose mark is not set are empty. */
  lemma TriedSkip(regs: Regions, rings: seq<seq<int>>, used: nat, i: int, j: int, k: int, alignment: nat, size: int)
    requires TriedFrom(regs, rings, used, i, j, alignment, size) && Masked(used, rings) && |rings| == NUM_RINGS &&
      alignment > 0
    requires 0 <= j <= k <= NUM_RINGS && forall n: nat :: j <= n < k ==> !Bit(used, n)
    ensures TriedFrom(regs, rings, used, i, k, alignment, size)
  {
  }

  /** The bits that a step over the mask skips, and all bits once nothing is left of it. */
  lemma NoMarks(used: nat, i: nat, k: nat)
    requires if Shr(used, i) == 0 then true else k == i + Ctz(Shr(used, i))
    ensures forall n: nat :: i <= n < k ==> !Bit(used, n)
  {
    hide Shr;
    var m := Shr(used, i);
    if m != 0 { CtzLowest(m); }
    forall n: nat | i <= n < k
      ensures !Bit(used, n)
    {
      ShrBits(used, i, n - i);
      if m == 0 { ShrZero(n - i); }
    }
  }

  /** The region that was tried is at the end of its list now. */
  lemma TriedCycled(regs: Regions, rings: seq<seq<int>>, rings': seq<seq<int>>, used: nat, i: int, j: int, a: int,
      alignment: nat, size: int)
    requires TriedFrom(regs, rings, used, i, j, alignment, size) && OnlyList(rings, rings', j) && alignment > 0
    requires 0 <= j < |rings| && |rings'[j]| > 2 && rings'[j][|rings'[j]| - 2] == a && a in regs && a > 0 &&
      !Fits(regs, a, alignment, size)
    ensures TriedFrom(regs, rings', used, i, j + 1, alignment, size)
  {
    forall n | i <= n < j + 1
      ensures Tried(regs, rings', used, n, alignment, size)
    {
      if n < j { assert Tried(regs, rings, used, n, alignment, size); }
    }
  }

  lemma TriedCleared(regs: Regions, rings: seq<seq<int>>, used: nat, i: int, j: nat, alignment: nat, size: int)
    requires TriedFrom(regs, rings, used, i, j, alignment, size) && 0 <= i
    ensures TriedFrom(regs, rings, ClearBit(used, j), i, j, alignment, size)
  {
    forall n | i <= n < j
      ensures Tried(regs, rings, ClearBit(used, j), n, alignment, size)
    {
      ClearBitBits(used, j, n);
      assert Tried(regs, rings, used, n, alignment, size);
    }
  }

  /** No free region is in a list of which every region would do for the request. */
  ghost predicate NoneAmple(regs: Regions, alignment: nat, size: int) {
    forall f :: f in regs && regs[f].kind.Free? ==> BucketMin(Slot(regs[f].size)) < size + alignment
  }

  /** A list that was tried in vain is not one of those. */
  lemma TriedNoneAmple(l: Layout, mem: Memory, regs: Regions, rings: seq<seq<int>>, used: nat, alignment: nat,
      size: int)
    requires Shape(l, |mem|, regs) && Rings(mem, l.buckets, FreeMap(regs), rings) && 8 <= size < WORD && alignment > 0
    requires TriedFrom(regs, rings, used, Bucket(size), NUM_FREE_BUCKETS, alignment, size)
    ensures NoneAmple(regs, alignment, size)
  {
    hide Shape, Rings, FreeMap, Slot, Bucket, BucketMin, Tried, AlignUp;
    forall f | f in regs && regs[f].kind.Free?
      ensures BucketMin(Slot(regs[f].size)) < size + alignment
    {
      var b := Slot(regs[f].size);
      if size + alignment <= BucketMin(b) {
        AboveBucket(size, b);
        assert Tried(regs, rings, used, b, alignment, size);
        ListHolds(l, mem, regs, rings, f);
        LastOfList(l, mem, regs, rings, used, b, alignment, size);
        assert false;
      }
    }
  }

  lemma AboveBucket(size: nat, b: int)
    requires 8 <= size < WORD && 0 <= b < NUM_FREE_BUCKETS && size < BucketMin(b)
    ensures Bucket(size) < b
  {
    hide Bucket;
    BucketRange(size, 0);
    BucketRange(size, Bucket(size));
    if b <= Bucket(size) { MinMono(b, Bucket(size)); }
  }

  /** The list of a free region is not empty. */
  lemma ListHolds(l: Layout, mem: Memory, regs: Regions, rings: seq<seq<int>>, f: int)
    requires Rings(mem, l.buckets, FreeMap(regs), rings) && f in regs && regs[f].kind.Free?
    ensures |rings| == NUM_RINGS && |rings[Slot(regs[f].size)]| > 2
  {
    hide Slot;
    SlotOf(regs, f);
    var b := Slot(regs[f].size);
    assert RingAt(mem, Sentinel(l.buckets, b), rings[b]) && f in rings[b] && Sentinel(l.buckets, b) < f;
  }

  /** The last region of a list of larger ones would have been large enough. */
  lemma LastOfList(l: Layout, mem: Memory, regs: Regions, rings: seq<seq<int>>, used: nat, b: int, alignment: nat,
      size: int)
    requires Shape(l, |mem|, regs) && Rings(mem, l.buckets, FreeMap(regs), rings) && |rings| == NUM_RINGS
    requires 0 <= b < NUM_FREE_BUCKETS && |rings[b]| > 2 && size + alignment <= BucketMin(b)
    ensures !Tried(regs, rings, used, b, alignment, size)
  {
    hide Shape, Rings, Slot, BucketMin;
    var k := |rings[b]| - 2;
    NodeIs(l, mem, regs, rings, b, k);
    InSlot(l, |mem|, regs, rings[b][k]);
  }

  lemma InSlot(l: Layout, top: int, regs: Regions, f: int)
    requires Shape(l, top, regs) && f in regs && regs[f].kind.Free?
    ensures BucketMin(Slot(regs[f].size)) <= regs[f].size - HEADER
  {
    hide HasNext, HasPrev, Coalesced, Aligned, Disjoint, Bucket, BucketMin;
    BucketRange(regs[f].size - HEADER, Slot(regs[f].size));
  }

  /** Not even the list of the highest marked bucket has a region that fits. */
  ghost predicate Exhausted(regs: Regions, rings: seq<seq<int>>, used: nat, alignment: nat, size: int) {
    used > 0 ==> Log2(used) < |rings| && NoFit(regs, rings, Log2(used), 1, |rings[Log2(used)]| - 1, alignment, size)
  }

  lemma TopBucket(used: nat, rings: seq<seq<int>>)
    requires Masked(used, rings) && used > 0
    ensures 0 <= Log2(used) < NUM_RINGS
  {
    Log2Highest(used);
  }

  lemma NoFitNone(regs: Regions, rings: seq<seq<int>>, i: int, k: int, alignment: nat, size: int)
    requires 0 <= i < |rings| && 0 < k < |rings[i]| && alignment > 0
    ensures NoFit(regs, rings, i, k, k, alignment, size)
  {
  }

  lemma ClaimSafe(mem: Memory, regs: Regions, mem': Memory, regs': Regions, head: int)
    requires PayloadsKept(mem, mem', regs - {head}) && Survive(regs, regs', {}) && OnlyOld(regs, regs')
    requires head in regs ==> !regs[head].kind.Used?
    ensures ClientSafe(mem, regs, mem', regs', {}, {})
  {
    var none: set<int> := {};
    assert none + {head} == {head};
    SafeFrom(mem, regs, mem', regs', none, {head}, none);
  }

  lemma PlacedSince(m0: Memory, r0: Regions, m1: Memory, r1: Regions, r2: Regions, ptr: int, alignment: nat, size: int)
    requires ClientSafe(m0, r0, m1, r1, {}, {}) && Placed(r1, r2, ptr, alignment, size)
    ensures Placed(r0, r2, ptr, alignment, size)
  {
  }

  // ----- writing to an allocation

  /** A client that writes only inside an allocation keeps the heap, and all other allocations. */
  lemma StoreStep(l: Layout, mem: Memory, mem': Memory, head: int, used: nat, regs: Regions, blocks: seq<Block>,
      rings: seq<seq<int>>, a: int)
    requires HeapOk(l, mem, head, used, regs, blocks, rings) && a in regs && regs[a].kind.Used?
    requires SameOutside(mem, mem', a + 4, a + regs[a].size - 4)
    ensures HeapOk(l, mem', head, used, regs, blocks, rings)
    ensures ClientSafe(mem, regs, mem', regs, {a}, {a})
  {
    hide Rings, Masked, Roots, FreeMap, HasNext, HasPrev, Coalesced, Aligned, LayoutOk, ClientSafe, Survive;
    StoreTags(l, mem, mem', regs, a);
    StoreRings(l, mem, mem', regs, rings, a);
    RootsKeptBut(mem, mem', head, regs, blocks, {a});
    SurviveAll(regs, {a});
    var none: set<int> := {};
    assert {a} + none == {a};
    SafeFrom(mem, regs, mem', regs, {a}, none, {a});
  }

  lemma SurviveAll(regs: Regions, gone: set<int>)
    ensures Survive(regs, regs, gone)
  {
  }

  lemma StoreTags(l: Layout, mem: Memory, mem': Memory, regs: Regions, a: int)
    requires Shape(l, |mem|, regs) && Tagged(mem, regs) && a in regs &&
      SameOutside(mem, mem', a + 4, a + regs[a].size - 4)
    ensures Tagged(mem', regs) && PayloadsKept(mem, mem', regs - {a})
  {
    hide HasNext, HasPrev, Coalesced, Aligned;
    forall b | b in regs ensures TaggedAt(mem', b, regs[b]) { TagOf(mem, regs, b); }
  }

  lemma StoreRings(l: Layout, mem: Memory, mem': Memory, regs: Regions, rings: seq<seq<int>>, a: int)
    requires Shape(l, |mem|, regs) && Rings(mem, l.buckets, FreeMap(regs), rings) && a in regs && regs[a].kind.Used?
    requires SameOutside(mem, mem', a + 4, a + regs[a].size - 4)
    ensures Rings(mem', l.buckets, FreeMap(regs), rings)
  {
    hide Rings;
    FreeSpacedShape(l, |mem|, regs);
    RegionKeepsRings(l, mem, mem', regs, rings, FreeMap(regs), a);
  }

  /** `mem'` has at `dst` what `mem` has at `src`, for `n` bytes. */
  ghost predicate Copied(mem: Memory, src: int, mem': Memory, dst: int, n: int) {
    && 0 <= src && src + n <= |mem| && 0 <= dst && dst + n <= |mem'|
    && forall w :: dst <= w < dst + n ==> mem'[w] == mem[src + (w - dst)]
  }

  lemma FreedSafe(l: Layout, mem: Memory, mem': Memory, regs: Regions, a: int)
    requires Shape(l, |mem|, regs) && a in regs && regs[a].kind.Used? && PayloadsKept(mem, mem', regs - {a})
    ensures CanFree(regs, a) && ClientSafe(mem, regs, mem', Freed(regs, a), {a}, {})
  {
    hide PayloadsKept, Survive, ClientSafe, Shape, Edit;
    FreeGood(l, |mem|, regs, a);
    var p, q := FreeFrom(regs, a), FreeTo(regs, a);
    SurviveEdit(regs, p, q, q, Free, Free, {a});
    FreedOnlyOld(regs, p, q, a);
    var none: set<int> := {};
    assert {a} + none == {a};
    SafeFrom(mem, regs, mem', Freed(regs, a), {a}, none, none);
  }

  lemma FreedOnlyOld(regs: Regions, p: int, q: int, a: int)
    requires p in regs && q in regs && p <= a < q
    ensures var r := Edit(regs, p, q, q, Free, Free);
      forall b :: b in r && r[b].kind.Used? ==> b in regs && regs[b].kind.Used? && b != a
  {
  }

  lemma InPlace(l: Layout, top: int, regs: Regions, a: int, size: int)
    requires Shape(l, top, regs) && a in regs && regs[a].kind.Used? && size % 4 == 0 && MIN_REGION <= size
    ensures FitsInPlace(regs, a, size) <==> CanResize(regs, a, size)
  {
    hide Shape;
    ResizeGood(l, top, regs, a, size);
  }

  lemma ResizedSafe(l: Layout, mem: Memory, mem': Memory, regs: Regions, a: int, size: int)
    requires Shape(l, |mem|, regs) && a in regs && regs[a].kind.Used? && size % 4 == 0 && CanResize(regs, a, size)
    requires PayloadsKept(mem, mem', regs - {a})
    ensures ClientSafe(mem, regs, mem', Resized(regs, a, size), {a}, {a})
    ensures a in Resized(regs, a, size) && Resized(regs, a, size)[a].kind.Used? &&
      size <= Resized(regs, a, size)[a].size < size + MIN_REGION
  {
    hide PayloadsKept, Survive, ClientSafe, Shape, Edit;
    ResizeGood(l, |mem|, regs, a, size);
    var x, q := ResizeEnd(regs, a, size), FreeTo(regs, a);
    SurviveEdit(regs, a, x, q, Used, Free, {a});
    ResizedUsed(regs, a, x, q);
    var none: set<int> := {};
    assert {a} + none == {a};
    SafeFrom(mem, regs, mem', Resized(regs, a, size), {a}, none, {a});
  }

  lemma ResizedUsed(regs: Regions, a: int, x: int, q: int)
    requires a in regs && q in regs && a < x <= q
    ensures var r := Edit(regs, a, x, q, Used, Free);
      && a in r && r[a].kind.Used? && r[a].size == x - a
      && (forall b :: b in r && r[b].kind.Used? && b != a ==> b in regs && regs[b].kind.Used?)
  {
  }

  /** A step that keeps allocation `a` after one that may have changed it. */
  lemma SafeThen(m0: Memory, r0: Regions, m1: Memory, r1: Regions, m2: Memory, r2: Regions, g1: set<int>, a1: set<int>,
      g2: set<int>, a2: set<int>)
    requires ClientSafe(m0, r0, m1, r1, g1, a1) && ClientSafe(m1, r1, m2, r2, g2, a2)
    ensures ClientSafe(m0, r0, m2, r2, g1 + g2, a1 + a2)
  {
    forall a | a in r0 && r0[a].kind.Used? && a !in g1 + g2
      ensures KeptAt(m0, r0, m2, r2, a)
    {
      KeptTrans(m0, r0, m1, r1, m2, r2, a);
    }
  }

  /** Regions that were not allocated to begin with need not be excepted. */
  lemma SafeDrop(m0: Memory, r0: Regions, m1: Memory, r1: Regions, gone: set<int>, extra: set<int>, added: set<int>)
    requires ClientSafe(m0, r0, m1, r1, gone + extra, added)
    requires forall a :: a in extra && a in r0 ==> !r0[a].kind.Used?
    ensures ClientSafe(m0, r0, m1, r1, gone, added)
  {
  }

  /** The contents of a moved allocation: kept while the new one was made, copied, and kept since. */
  lemma MovedContents(m0: Memory, m1: Memory, m2: Memory, m3: Memory, ptr: int, newptr: int, had: int, n: int,
      size: int, want: int)
    requires 4 <= ptr && ptr + had - 8 <= |m0| && PrefixKept(m0, m1, ptr - 4, had)
    requires Copied(m1, ptr, m2, newptr, n)
    requires 4 <= newptr && newptr + size - 8 <= |m2| && PrefixKept(m2, m3, newptr - 4, size)
    requires want <= n <= size - 8 && want <= had - 8 && 0 <= n
    ensures Copied(m0, ptr, m3, newptr, want)
  {
    forall w | newptr <= w < newptr + want
      ensures m3[w] == m0[ptr + (w - newptr)]
    {
      var v := ptr + (w - newptr);
      assert m3[w] == m2[w] && m2[w] == m1[v] && m1[v] == m0[v];
    }
  }

  lemma InPlaceContents(m0: Memory, m1: Memory, ptr: int, had: int, size: int, want: int)
    requires 4 <= ptr && ptr + had - 8 <= |m0| && PrefixKept(m0, m1, ptr - 4, if had < size then had else size)
    requires want <= had - 8 && want <= size - 8
    ensures Copied(m0, ptr, m1, ptr, want)
  {
    forall w | ptr <= w < ptr + want
      ensures m1[w] == m0[ptr + (w - ptr)]
    {
      assert m1[w] == m0[w];
    }
  }

  /** Two allocations do not overlap. */
  lemma UsedApart(l: Layout, top: int, regs: Regions, a: int, b: int)
    requires Shape(l, top, regs) && a in regs && b in regs && a != b
    ensures a + regs[a].size <= b || b + regs[b].size <= a
    ensures 0 < a && MIN_REGION <= regs[a].size && a + regs[a].size <= top
    ensures 0 < b && MIN_REGION <= regs[b].size && b + regs[b].size <= top
  {
  }

  lemma KeptOf(m0: Memory, r0: Regions, m1: Memory, r1: Regions, gone: set<int>, added: set<int>, a: int)
    requires ClientSafe(m0, r0, m1, r1, gone, added) && a in r0 && r0[a].kind.Used? && a !in gone
    ensures a in r1 && r1[a].kind.Used? && r0[a].size <= r1[a].size && PrefixKept(m0, m1, a, r0[a].size)
  {
    assert KeptAt(m0, r0, m1, r1, a);
  }

  lemma WithinPayload(mem: Memory, mem': Memory, a: int, size: int, n: int)
    requires SameOutside(mem, mem', a + 4, a + 4 + n) && n <= size - 8
    ensures SameOutside(mem, mem', a + 4, a + size - 4)
  {
  }

  lemma MovedSafe(m0: Memory, r0: Regions, m1: Memory, r1: Regions, m2: Memory, m3: Memory, r3: Regions, a: int, b: int)
    requires ClientSafe(m0, r0, m1, r1, {}, {b}) && ClientSafe(m1, r1, m2, r1, {b}, {b}) &&
      ClientSafe(m2, r1, m3, r3, {a}, {})
    requires b in r0 ==> !r0[b].kind.Used?
    ensures ClientSafe(m0, r0, m3, r3, {a}, {b})
  {
    hide ClientSafe;
    SafeThen(m0, r0, m1, r1, m2, r1, {}, {b}, {b}, {b});
    SafeThen(m0, r0, m2, r1, m3, r3, {} + {b}, {b} + {b}, {a}, {});
    assert {} + {b} + {a} == {a} + {b} && {b} + {b} + {} == {b};
    SafeDrop(m0, r0, m3, r3, {a}, {b}, {b});
  }

  // ----- the start

  ghost function EmptyRings(buckets: int): seq<seq<int>> {
    seq(NUM_RINGS, i => [Sentinel(buckets, i), Sentinel(buckets, i)])
  }

  lemma StartState(l: Layout, mem: Memory)
    requires LayoutOk(l) && l.heapEnd <= |mem| <= l.limit && |mem| % 4 == 0
    requires forall i :: 0 <= i < NUM_RINGS ==> Linked(mem, Sentinel(l.buckets, i), Sentinel(l.buckets, i))
    ensures HeapOk(l, mem, 0, 0, map[], [], EmptyRings(l.buckets))
  {
    var rings := EmptyRings(l.buckets);
    forall i | 0 <= i < NUM_RINGS
      ensures RingAt(mem, Sentinel(l.buckets, i), rings[i])
    {
      assert rings[i] == [Sentinel(l.buckets, i), Sentinel(l.buckets, i)];
      assert Linked(mem, Sentinel(l.buckets, i), Sentinel(l.buckets, i));
    }
    forall i: nat ensures !Bit(0, i) { ShrZero(i); }
  }
}
