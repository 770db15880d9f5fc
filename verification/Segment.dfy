/** dlmalloc's chunks in one segment: their heads and feet, and which of them are free.

    The subdivision is kept as in `Regions`: a virtual root region before the first chunk, the
    trailing overhead space after `top` as the end, and `top` itself as the last free region. */
module Segment {
  import opened Bits
  import opened Places
  import opened Regions
  import opened Chunks
  import opened FreeBins
  import opened BinSteps

  /** Chunks start 8 bytes before a multiple of 16. */
  ghost predicate Aligned16(regs: Regions) {
    forall a :: a in regs ==> a % 16 == 8 && regs[a].size % 16 == 0
  }

  /** The head of the chunk at `a`, and the foot before it if the chunk before it is free. */
  ghost predicate HeadAt(c: Chunks, regs: Regions, a: int) {
    a in regs && PrevOf(regs, a) in regs && Plain(regs[a].kind) ==>
      var p := PrevOf(regs, a);
      && At(c, a).size == regs[a].size && At(c, a).cinuse == regs[a].kind.Used?
      && At(c, a).pinuse == !regs[p].kind.Free?
      && (regs[p].kind.Free? ==> At(c, a).prevFoot == regs[p].size)
  }

  ghost predicate Heads(c: Chunks, regs: Regions) {
    forall a {:trigger HeadAt(c, regs, a)} :: a in regs ==> HeadAt(c, regs, a)
  }

  /** What holds the free chunks: `top`, the designated victim, the bins, and the operation at work. */
  datatype Pool = Pool(top: int, topsize: int, dv: int, dvsize: int, binned: set<int>, loose: set<int>)

  ghost predicate Holds(h: Pool, a: int) { a == h.top || (h.dvsize != 0 && a == h.dv) || a in h.binned || a in h.loose }

  /** `top` ends the segment, and no free chunk is held twice. */
  ghost predicate Anchored(regs: Regions, h: Pool) {
    && h.top in regs && regs[h.top].size == h.topsize && h.top + h.topsize in regs && regs[h.top + h.topsize].kind.End?
    && (forall a :: a in regs && regs[a].kind.End? ==> a == h.top + h.topsize)
    && (h.dvsize == 0 <==> h.dv == 0)
    && (h.dvsize != 0 ==>
      && h.dv in regs && regs[h.dv].size == h.dvsize && h.dv != h.top && h.dv !in h.binned
      && h.dv !in h.loose)
    && h.top !in h.binned && h.top !in h.loose && (forall a :: a in h.loose ==> a !in h.binned)
  }

  ghost predicate IsFree(regs: Regions, a: int) { a in regs && regs[a].kind.Free? }

  /** The free chunks are held, each once. */
  ghost predicate Cover(regs: Regions, h: Pool) {
    Anchored(regs, h) && (forall a :: Holds(h, a) <==> IsFree(regs, a))
  }

  ghost predicate SegOk(c: Chunks, regs: Regions, lo: int, hi: int, h: Pool) {
    && 0 < lo && Tiled(regs, lo, hi) && Coalesced(regs) && Aligned16(regs) && Heads(c, regs) && Cover(regs, h)
  }

  ghost predicate HeadSame(c: Chunks, c': Chunks, a: int) {
    && At(c', a).size == At(c, a).size && At(c', a).cinuse == At(c, a).cinuse
    && At(c', a).pinuse == At(c, a).pinuse && At(c', a).prevFoot == At(c, a).prevFoot
  }

  lemma HeadsFrame(c: Chunks, c': Chunks, regs: Regions, at: set<int>)
    requires Heads(c, regs) && Relinked(c, c', at)
    ensures Heads(c', regs)
  {
    forall a | a in regs
      ensures HeadAt(c', regs, a)
    {
      assert HeadAt(c, regs, a);
    }
  }

  /** The heads and feet written for an edit of the subdivision. */
  ghost predicate Written(c: Chunks, c': Chunks, regs: Regions, p: int, x: int, q: int, k1: Kind, k2: Kind)
    requires q in regs
  {
    && At(c', p).size == x - p && At(c', p).cinuse == k1.Used? && At(c', p).pinuse == At(c, p).pinuse &&
      At(c', p).prevFoot == At(c, p).prevFoot
    && (x < q ==>
      && At(c', x).size == q - x && At(c', x).cinuse == k2.Used? && At(c', x).pinuse == !k1.Free?
      && (k1.Free? ==> At(c', x).prevFoot == x - p))
    && (!regs[q].kind.End? ==>
          && At(c', q).size == At(c, q).size && At(c', q).cinuse == At(c, q).cinuse
          && At(c', q).pinuse == !(if x < q then k2 else k1).Free?
          && ((if x < q then k2 else k1).Free? ==> At(c', q).prevFoot == if x < q then q - x else x - p))
    && (forall a :: a in regs && (a < p || q < a) ==> HeadSame(c, c', a))
  }

  lemma HeadsEdit(c: Chunks, c': Chunks, regs: Regions, lo: int, hi: int, p: int, x: int, q: int, k1: Kind, k2: Kind)
    requires Tiled(regs, lo, hi) && Heads(c, regs) && CanEdit(regs, p, x, q, k1, k2) && Plain(k1) && Plain(regs[p].kind)
    requires Written(c, c', regs, p, x, q, k1, k2)
    ensures Heads(c', Edit(regs, p, x, q, k1, k2))
  {
    var r := Edit(regs, p, x, q, k1, k2);
    forall a | a in r
      ensures HeadAt(c', r, a)
    {
      HeadEdit(c, c', regs, lo, hi, p, x, q, k1, k2, a);
    }
  }

  lemma HeadEdit(c: Chunks, c': Chunks, regs: Regions, lo: int, hi: int, p: int, x: int, q: int, k1: Kind, k2: Kind,
      a: int)
    requires Tiled(regs, lo, hi) && Heads(c, regs) && CanEdit(regs, p, x, q, k1, k2) && Plain(k1) && Plain(regs[p].kind)
    requires Written(c, c', regs, p, x, q, k1, k2) && a in Edit(regs, p, x, q, k1, k2)
    ensures HeadAt(c', Edit(regs, p, x, q, k1, k2), a)
  {
    if a in regs {
      assert HeadAt(c, regs, a);
      if (a <= p || q < a) && !regs[a].kind.Root? { PrevAway(regs, lo, hi, p, q, a); }
    }
  }

  lemma AlignedEdit(regs: Regions, p: int, x: int, q: int, k1: Kind, k2: Kind)
    requires Aligned16(regs) && CanEdit(regs, p, x, q, k1, k2) && x % 16 == 8
    ensures Aligned16(Edit(regs, p, x, q, k1, k2))
  {
    Apart16(p, x);
    Apart16(x, q);
  }

  lemma Apart16(p: int, x: int)
    requires p % 16 == 8 && x % 16 == 8
    ensures (x - p) % 16 == 0
  {
  }

  /** An edit that leaves no two free chunks side by side. */
  ghost predicate GoodEdit(regs: Regions, p: int, x: int, q: int, k1: Kind, k2: Kind) {
    && CanEdit(regs, p, x, q, k1, k2) && Plain(k1) && Plain(regs[p].kind) && x % 16 == 8
    && (k1.Free? ==> PrevOf(regs, p) in regs && !regs[PrevOf(regs, p)].kind.Free?)
    && ((if x < q then k2 else k1).Free? ==> !regs[q].kind.Free?)
    && (x < q ==> !(k1.Free? && k2.Free?))
  }

  lemma EditSeg(c: Chunks, c': Chunks, regs: Regions, lo: int, hi: int, h: Pool, p: int, x: int, q: int, k1: Kind,
      k2: Kind, h': Pool)
    requires SegOk(c, regs, lo, hi, h) && GoodEdit(regs, p, x, q, k1, k2) && Written(c, c', regs, p, x, q, k1, k2)
    requires Cover(Edit(regs, p, x, q, k1, k2), h')
    ensures SegOk(c', Edit(regs, p, x, q, k1, k2), lo, hi, h')
  {
    hide Heads, Aligned16, Coalesced, Written, Cover, Disjoint, HasNext, HasPrev, Edit;
    TiledEdit(regs, lo, hi, p, x, q, k1, k2);
    AlignedEdit(regs, p, x, q, k1, k2);
    CoalescedEdit(regs, lo, hi, p, x, q, k1, k2);
    HeadsEdit(c, c', regs, lo, hi, p, x, q, k1, k2);
  }

  /** Only links changed, and the pool with them. */
  lemma RelinkSeg(c: Chunks, c': Chunks, regs: Regions, lo: int, hi: int, h: Pool, at: set<int>, h': Pool)
    requires SegOk(c, regs, lo, hi, h) && Relinked(c, c', at) && Cover(regs, h')
    ensures SegOk(c', regs, lo, hi, h')
  {
    hide Heads, Aligned16, Coalesced, Cover, Tiled, Relinked;
    HeadsFrame(c, c', regs, at);
  }

  // ----- what the fields of a chunk say

  lemma ChunkFacts(c: Chunks, regs: Regions, lo: int, hi: int, h: Pool, a: int)
    requires SegOk(c, regs, lo, hi, h) && a in regs && Plain(regs[a].kind)
    ensures lo + MIN_REGION <= a && MIN_REGION <= regs[a].size && At(c, a).size == regs[a].size &&
      At(c, a).cinuse == regs[a].kind.Used?
    ensures NextOf(regs, a) in regs && !regs[NextOf(regs, a)].kind.Root? && PrevOf(regs, NextOf(regs, a)) == a
    ensures PrevOf(regs, a) in regs && NextOf(regs, PrevOf(regs, a)) == a &&
      At(c, a).pinuse == !regs[PrevOf(regs, a)].kind.Free?
    ensures regs[PrevOf(regs, a)].kind.Free? ==> At(c, a).prevFoot == regs[PrevOf(regs, a)].size
    ensures regs[a].kind.Free? ==> !regs[NextOf(regs, a)].kind.Free? && !regs[PrevOf(regs, a)].kind.Free?
    ensures a % 16 == 8 && regs[a].size % 16 == 0
    ensures forall b :: b in regs && a < b ==> NextOf(regs, a) <= b
  {
    assert HeadAt(c, regs, a);
    var n, p := NextOf(regs, a), PrevOf(regs, a);
    assert NextOf(regs, p) == a;
  }

  // ----- the macros that write heads and feet

  function SetHead(c: Chunks, p: int, s: int, cinuse: bool, pinuse: bool): Chunks {
    c[p := At(c, p).(size := s, cinuse := cinuse, pinuse := pinuse)]
  }

  function SetPinuse(c: Chunks, n: int, pinuse: bool): Chunks { c[n := At(c, n).(pinuse := pinuse)] }

  function SetFoot(c: Chunks, p: int, s: int): Chunks { c[p + s := At(c, p + s).(prevFoot := s)] }

  /** `set_inuse` */
  function SetInuse(c: Chunks, p: int, s: int): Chunks {
    SetPinuse(SetHead(c, p, s, true, At(c, p).pinuse), p + s, true)
  }

  /** `set_inuse_and_pinuse` */
  function SetInuseAndPinuse(c: Chunks, p: int, s: int): Chunks { SetPinuse(SetHead(c, p, s, true, true), p + s, true) }

  /** `set_size_and_pinuse_of_inuse_chunk` */
  function SetSizeOfInuse(c: Chunks, p: int, s: int): Chunks { SetHead(c, p, s, true, true) }

  /** `set_size_and_pinuse_of_free_chunk` */
  function SetSizeOfFree(c: Chunks, p: int, s: int): Chunks { SetFoot(SetHead(c, p, s, false, true), p, s) }

  /** `set_free_with_pinuse` */
  function SetFreeWithPinuse(c: Chunks, p: int, s: int, n: int): Chunks { SetSizeOfFree(SetPinuse(c, n, false), p, s) }

  /** Only heads and feet differ, and only at `at`. */
  ghost predicate HeadsOnly(c: Chunks, c': Chunks, at: set<int>) {
    && (forall a :: At(c', a) == At(c, a).(size := At(c', a).size, cinuse := At(c', a).cinuse,
      pinuse := At(c', a).pinuse, prevFoot := At(c', a).prevFoot))
    && (forall a :: a !in at ==> At(c', a) == At(c, a))
  }

  // ----- allocating a free chunk

  lemma WholeWritten(c: Chunks, regs: Regions, lo: int, hi: int, h: Pool, v: int)
    requires SegOk(c, regs, lo, hi, h) && v in regs && regs[v].kind.Free?
    ensures NextOf(regs, v) in regs
    ensures var c', q := SetInuseAndPinuse(c, v, regs[v].size), NextOf(regs, v);
      GoodEdit(regs, v, q, q, Used, Used) && Written(c, c', regs, v, q, q, Used, Used) && HeadsOnly(c, c', {v, q})
  {
    hide Cover;
    ChunkFacts(c, regs, lo, hi, h, v);
    var q := NextOf(regs, v);
    assert q % 16 == 8;
  }

  lemma SplitWritten(c: Chunks, regs: Regions, lo: int, hi: int, h: Pool, v: int, nb: int)
    requires SegOk(c, regs, lo, hi, h) && v in regs && regs[v].kind.Free?
    requires MIN_REGION <= nb && nb + MIN_REGION <= regs[v].size && nb % 16 == 0
    ensures NextOf(regs, v) in regs
    ensures var c', q := SetSizeOfFree(SetSizeOfInuse(c, v, nb), v + nb, regs[v].size - nb), NextOf(regs, v);
      GoodEdit(regs, v, v + nb, q, Used, Free) && Written(c, c', regs, v, v + nb, q, Used, Free) &&
          HeadsOnly(c, c', {v, v + nb, q})
  {
    hide SegOk, SetSizeOfFree, SetSizeOfInuse;
    SplitGood(c, regs, lo, hi, h, v, nb);
    var q := NextOf(regs, v);
    SplitAt(c, v, v + nb, q);
    FreeNext(c, regs, lo, hi, h, v);
  }

  lemma SplitGood(c: Chunks, regs: Regions, lo: int, hi: int, h: Pool, v: int, nb: int)
    requires SegOk(c, regs, lo, hi, h) && v in regs && regs[v].kind.Free?
    requires MIN_REGION <= nb && nb + MIN_REGION <= regs[v].size && nb % 16 == 0
    ensures NextOf(regs, v) in regs && GoodEdit(regs, v, v + nb, NextOf(regs, v), Used, Free)
  {
    hide SegOk;
    ChunkFacts(c, regs, lo, hi, h, v);
    assert (v + nb) % 16 == 8;
  }

  /** The chunk after a free one knows it as free, and with its size. */
  lemma FreeNext(c: Chunks, regs: Regions, lo: int, hi: int, h: Pool, v: int)
    requires SegOk(c, regs, lo, hi, h) && v in regs && regs[v].kind.Free?
    ensures At(c, v).pinuse && NextOf(regs, v) in regs
    ensures !regs[NextOf(regs, v)].kind.End? ==> !At(c, NextOf(regs, v)).pinuse
  {
    hide SegOk;
    ChunkFacts(c, regs, lo, hi, h, v);
    var q := NextOf(regs, v);
    if !regs[q].kind.End? { ChunkFacts(c, regs, lo, hi, h, q); }
  }

  /** What cutting a free chunk leaves at each address. */
  lemma SplitAt(c: Chunks, v: int, x: int, q: int)
    requires v < x < q
    ensures var c' := SetSizeOfFree(SetSizeOfInuse(c, v, x - v), x, q - x);
      && At(c', v) == At(c, v).(size := x - v, cinuse := true, pinuse := true)
      && At(c', x) == At(c, x).(size := q - x, cinuse := false, pinuse := true)
      && At(c', q) == At(c, q).(prevFoot := q - x)
      && (forall a :: a != v && a != x && a != q ==> At(c', a) == At(c, a))
  {
  }

  lemma FreeAfter(regs: Regions, p: int, x: int, q: int, k1: Kind, k2: Kind, a: int)
    requires CanEdit(regs, p, x, q, k1, k2)
    ensures IsFree(Edit(regs, p, x, q, k1, k2), a) <==>
      if a == p then k1.Free? else if a == x && x < q then k2.Free? else (a < p || q <= a) && IsFree(regs, a)
  {
  }

  /** The free chunks after an edit are held if those of the edited stretch were let go and the new ones taken up. */
  lemma CoverEdit(regs: Regions, p: int, x: int, q: int, k1: Kind, k2: Kind, h: Pool, h': Pool)
    requires Cover(regs, h) && CanEdit(regs, p, x, q, k1, k2) && Anchored(Edit(regs, p, x, q, k1, k2), h')
    requires forall a :: Holds(h', a) <==>
      if a == p then k1.Free? else if a == x && x < q then k2.Free? else (a < p || q <= a) && Holds(h, a)
    ensures Cover(Edit(regs, p, x, q, k1, k2), h')
  {
    hide Edit, Holds, Anchored;
    forall a
      ensures Holds(h', a) <==> IsFree(Edit(regs, p, x, q, k1, k2), a)
    {
      FreeAfter(regs, p, x, q, k1, k2, a);
    }
  }

  /** An edit away from `top` and `dv` leaves them where they are. */
  lemma AnchoredEdit(regs: Regions, p: int, x: int, q: int, k1: Kind, k2: Kind, h: Pool, h': Pool)
    requires Anchored(regs, h) && CanEdit(regs, p, x, q, k1, k2) && !regs[p].kind.End? && p < q
    requires h'.top == h.top && h'.topsize == h.topsize && h'.dv == h.dv && h'.dvsize == h.dvsize &&
      h'.binned == h.binned
    requires (h.top < p || q <= h.top) && (h.dvsize != 0 ==> h.dv < p || q <= h.dv)
    requires forall a :: a in h'.loose ==>
      a in h.loose || (a !in h.binned && a != h.top && (h.dvsize != 0 ==> a != h.dv))
    ensures Anchored(Edit(regs, p, x, q, k1, k2), h')
  {
  }

  lemma Outside(regs: Regions, lo: int, hi: int, h: Pool, v: int)
    requires Tiled(regs, lo, hi) && Cover(regs, h) && v in regs
    ensures forall a :: Holds(h, a) && a != v ==> a < v || NextOf(regs, v) <= a
    ensures h.top != v ==> h.top < v || NextOf(regs, v) <= h.top
    ensures h.dvsize != 0 && h.dv != v ==> h.dv < v || NextOf(regs, v) <= h.dv
  {
    forall a | Holds(h, a) && a != v
      ensures a < v || NextOf(regs, v) <= a
    {
      assert IsFree(regs, a);
    }
    assert Holds(h, h.top) && (h.dvsize != 0 ==> Holds(h, h.dv));
  }

  lemma WholeCover(regs: Regions, lo: int, hi: int, h: Pool, v: int)
    requires Tiled(regs, lo, hi) && Cover(regs, h) && v in h.loose && v in regs && Plain(regs[v].kind)
    requires CanEdit(regs, v, NextOf(regs, v), NextOf(regs, v), Used, Used)
    ensures Cover(Edit(regs, v, NextOf(regs, v), NextOf(regs, v), Used, Used), h.(loose := h.loose - {v}))
  {
    hide Edit, Tiled;
    var q, h' := NextOf(regs, v), h.(loose := h.loose - {v});
    Outside(regs, lo, hi, h, v);
    AnchoredEdit(regs, v, q, q, Used, Used, h, h');
    forall a
      ensures Holds(h', a) <==> if a == v then false else (a < v || q <= a) && Holds(h, a)
    {
      assert a != v ==> Holds(h', a) == Holds(h, a);
    }
    CoverEdit(regs, v, q, q, Used, Used, h, h');
  }

  lemma SplitCover(regs: Regions, lo: int, hi: int, h: Pool, v: int, x: int)
    requires Tiled(regs, lo, hi) && Cover(regs, h) && v in h.loose && v in regs && Plain(regs[v].kind)
    requires x < NextOf(regs, v) && CanEdit(regs, v, x, NextOf(regs, v), Used, Free)
    ensures Cover(Edit(regs, v, x, NextOf(regs, v), Used, Free), h.(loose := h.loose - {v} + {x}))
  {
    hide Edit, Tiled;
    var q, h' := NextOf(regs, v), h.(loose := h.loose - {v} + {x});
    Outside(regs, lo, hi, h, v);
    assert !Holds(h, x);
    AnchoredEdit(regs, v, x, q, Used, Free, h, h');
    forall a
      ensures Holds(h', a) <==> if a == v then false else if a == x then true else (a < v || q <= a) && Holds(h, a)
    {
      assert a != v && a != x ==> Holds(h', a) == Holds(h, a);
    }
    CoverEdit(regs, v, x, q, Used, Free, h, h');
  }

  /** Splitting `top`: the lower part is allocated, the upper part is the new `top`. */
  lemma TopCover(regs: Regions, lo: int, hi: int, h: Pool, x: int)
    requires Tiled(regs, lo, hi) && Cover(regs, h) && Plain(regs[h.top].kind)
    requires x < NextOf(regs, h.top) && CanEdit(regs, h.top, x, NextOf(regs, h.top), Used, Free)
    ensures Cover(Edit(regs, h.top, x, NextOf(regs, h.top), Used, Free),
      h.(top := x, topsize := NextOf(regs, h.top) - x))
  {
    hide Tiled;
    var q, h' := NextOf(regs, h.top), h.(top := x, topsize := NextOf(regs, h.top) - x);
    Outside(regs, lo, hi, h, h.top);
    assert !Holds(h, x);
    assert Holds(h, h.dv) || h.dvsize == 0;
    forall a
      ensures Holds(h', a) <==>
        if a == h.top then false else if a == x then true else (a < h.top || q <= a) && Holds(h, a)
    {
      assert a != h.top && a != x ==> Holds(h', a) == Holds(h, a);
    }
    CoverEdit(regs, h.top, x, q, Used, Free, h, h');
  }

  // ----- moving free chunks between their holders

  lemma UnbinCover(regs: Regions, h: Pool, v: int)
    requires Cover(regs, h) && v in h.binned
    ensures Cover(regs, h.(binned := h.binned - {v}, loose := h.loose + {v}))
  {
    var h' := h.(binned := h.binned - {v}, loose := h.loose + {v});
    assert forall a :: Holds(h', a) <==> Holds(h, a);
  }

  lemma BinCover(regs: Regions, h: Pool, v: int)
    requires Cover(regs, h) && v in h.loose
    ensures Cover(regs, h.(binned := h.binned + {v}, loose := h.loose - {v}))
  {
    var h' := h.(binned := h.binned + {v}, loose := h.loose - {v});
    assert forall a :: Holds(h', a) <==> Holds(h, a);
  }

  /** The designated victim is let go ... */
  lemma DropDvCover(regs: Regions, h: Pool)
    requires Cover(regs, h) && h.dvsize != 0
    ensures Cover(regs, h.(dv := 0, dvsize := 0, loose := h.loose + {h.dv}))
  {
    var h' := h.(dv := 0, dvsize := 0, loose := h.loose + {h.dv});
    assert forall a :: Holds(h', a) <==> Holds(h, a);
  }

  /** ... or chosen. */
  lemma SetDvCover(regs: Regions, h: Pool, v: int)
    requires Cover(regs, h) && h.dvsize == 0 && v in h.loose && v in regs && regs[v].size != 0 && v != 0
    ensures Cover(regs, h.(dv := v, dvsize := regs[v].size, loose := h.loose - {v}))
  {
    var h' := h.(dv := v, dvsize := regs[v].size, loose := h.loose - {v});
    assert forall a :: Holds(h', a) <==> Holds(h, a);
  }

  // ----- freeing a chunk together with its free neighbours

  /** Where the free stretch around the chunk at `p` begins and ends once `p` is free. */
  function FreeStart(regs: Regions, p: int): int
    requires p in regs
  {
    if PrevOf(regs, p) in regs && regs[PrevOf(regs, p)].kind.Free? then PrevOf(regs, p) else p
  }

  function FreeEnd(regs: Regions, p: int): int
    requires p in regs
  {
    var n := NextOf(regs, p);
    if n in regs && regs[n].kind.Free? then NextOf(regs, n) else n
  }

  lemma NotLast(c: Chunks, regs: Regions, lo: int, hi: int, h: Pool, p: int)
    requires SegOk(c, regs, lo, hi, h) && p in regs && regs[p].kind.Used?
    ensures NextOf(regs, p) in regs && Plain(regs[NextOf(regs, p)].kind)
  {
    hide Heads, Coalesced, Aligned16;
    var n := NextOf(regs, p);
    assert Holds(h, h.top) && IsFree(regs, h.top) && NextOf(regs, h.top) == h.top + h.topsize;
  }

  lemma FreeRange(c: Chunks, regs: Regions, lo: int, hi: int, h: Pool, p: int)
    requires SegOk(c, regs, lo, hi, h) && p in regs && regs[p].kind.Used?
    ensures var pp, q := FreeStart(regs, p), FreeEnd(regs, p);
      && GoodEdit(regs, pp, q, q, Free, Free) && pp <= p < NextOf(regs, p) <= q
      && (forall a :: a in regs && pp <= a < q ==> a == pp || a == p || a == NextOf(regs, p))
  {
    hide Heads, Cover;
    NotLast(c, regs, lo, hi, h, p);
    ChunkFacts(c, regs, lo, hi, h, p);
    var n, v := NextOf(regs, p), PrevOf(regs, p);
    ChunkFacts(c, regs, lo, hi, h, n);
    if regs[v].kind.Free? { ChunkFacts(c, regs, lo, hi, h, v); }
    SpanInside(regs, lo, hi, p);
  }

  lemma SpanInside(regs: Regions, lo: int, hi: int, p: int)
    requires Tiled(regs, lo, hi) && p in regs && regs[p].kind.Used? && PrevOf(regs, p) in regs &&
      NextOf(regs, p) in regs
    ensures var pp, q := FreeStart(regs, p), FreeEnd(regs, p);
      forall a :: a in regs && pp <= a < q ==> a == pp || a == p || a == NextOf(regs, p)
  {
  }

  /** After the heads are written, the merged chunk is held by nothing. */
  lemma FreeCover(regs: Regions, p: int, q: int, h: Pool, gone: set<int>, h': Pool)
    requires Cover(regs, h) && CanEdit(regs, p, q, q, Free, Free) && Plain(regs[p].kind) && p < q
    requires gone <= h.loose && (forall a :: Holds(h, a) && p <= a < q ==> a in gone) &&
      (forall a :: a in gone ==> p <= a < q)
    requires h' == h.(loose := h.loose - gone + {p})
    ensures Cover(Edit(regs, p, q, q, Free, Free), h')
  {
    hide Edit;
    assert Holds(h, h.top) && (h.dvsize != 0 ==> Holds(h, h.dv));
    assert p in h.binned ==> Holds(h, p);
    AnchoredEdit(regs, p, q, q, Free, Free, h, h');
    forall a
      ensures Holds(h', a) <==> if a == p then true else (a < p || q <= a) && Holds(h, a)
    {
      assert a !in gone && a != p ==> Holds(h', a) == Holds(h, a);
    }
    CoverEdit(regs, p, q, q, Free, Free, h, h');
  }

  /** The merged chunk reaches to the end of the segment and becomes `top`. */
  lemma FreeTopCover(regs: Regions, p: int, q: int, h: Pool, gone: set<int>, h': Pool)
    requires Cover(regs, h) && CanEdit(regs, p, q, q, Free, Free) && Plain(regs[p].kind) && p <= h.top < q &&
      q == h.top + h.topsize
    requires gone <= h.loose && (forall a :: Holds(h, a) && p <= a < q ==> a in gone || a == h.top) &&
      (forall a :: a in gone ==> p <= a < q)
    requires h' == h.(top := p, topsize := q - p, loose := h.loose - gone)
    ensures Cover(Edit(regs, p, q, q, Free, Free), h')
  {
    assert h.dvsize != 0 ==> Holds(h, h.dv);
    assert forall a :: a in h.binned ==> Holds(h, a);
    assert forall a :: a in h.loose ==> Holds(h, a);
    forall a
      ensures Holds(h', a) <==> if a == p then true else (a < p || q <= a) && Holds(h, a)
    {
      assert a !in gone && a != p && a != h.top ==> Holds(h', a) == Holds(h, a);
    }
    CoverEdit(regs, p, q, q, Free, Free, h, h');
  }

  lemma FreeWritten(c: Chunks, c': Chunks, regs: Regions, lo: int, hi: int, h: Pool, p: int, q: int)
    requires SegOk(c, regs, lo, hi, h) && GoodEdit(regs, p, q, q, Free, Free)
    requires if regs[q].kind.End? then c' == SetHead(c, p, q - p, false, true)
             else if At(c, q).pinuse then c' == SetFreeWithPinuse(c, p, q - p, q)
             else c' == SetSizeOfFree(c, p, q - p)
    ensures Written(c, c', regs, p, q, q, Free, Free) && HeadsOnly(c, c', {p, q})
  {
    hide Cover, Coalesced, Aligned16, Tiled;
    assert HeadAt(c, regs, p);
  }

  // ----- what the user stored

  /** The words of the chunk at `a` that belong to its user, the last one before the next chunk's head. */
  ghost predicate UserSame(c: Chunks, c': Chunks, regs: Regions, a: int)
    requires a in regs
  {
    && At(c', a).fd == At(c, a).fd && At(c', a).bk == At(c, a).bk && At(c', a).left == At(c, a).left
    && At(c', a).right == At(c, a).right && At(c', a).parent == At(c, a).parent && At(c', a).index == At(c, a).index
    && At(c', NextOf(regs, a)).prevFoot == At(c, NextOf(regs, a)).prevFoot
  }

  /** Allocated chunks outside `[p, q)` are untouched. */
  ghost predicate UserKept(c: Chunks, c': Chunks, regs: Regions, p: int, q: int) {
    forall a :: a in regs && regs[a].kind.Used? && (a < p || q <= a) ==> UserSame(c, c', regs, a)
  }

  lemma RelinkedUser(c: Chunks, c': Chunks, regs: Regions, lo: int, hi: int, h: Pool, at: set<int>, p: int, q: int)
    requires SegOk(c, regs, lo, hi, h) && Relinked(c, c', at) && at <= h.binned
    ensures UserKept(c, c', regs, p, q)
  {
    forall a | a in regs && regs[a].kind.Used?
      ensures a > 0 && a !in at
    {
      assert !IsFree(regs, a);
      assert a in h.binned ==> Holds(h, a);
    }
  }

  lemma WrittenUser(c: Chunks, c': Chunks, regs: Regions, lo: int, hi: int, p: int, x: int, q: int, k1: Kind, k2: Kind)
    requires Tiled(regs, lo, hi) && CanEdit(regs, p, x, q, k1, k2) && Written(c, c', regs, p, x, q, k1, k2) &&
      HeadsOnly(c, c', {p, x, q})
    ensures UserKept(c, c', regs, p, q)
  {
    forall a | a in regs && regs[a].kind.Used? && (a < p || q <= a)
      ensures UserSame(c, c', regs, a)
    {
      NextAway(regs, lo, hi, p, q, a);
    }
  }

  /** Allocated chunks outside an edit are the same before and after it. */
  lemma UserEdit(c: Chunks, c': Chunks, regs: Regions, p: int, x: int, q: int, k1: Kind, k2: Kind)
    requires CanEdit(regs, p, x, q, k1, k2) && UserKept(c, c', Edit(regs, p, x, q, k1, k2), p, q)
    ensures UserKept(c, c', regs, p, q)
  {
    var r := Edit(regs, p, x, q, k1, k2);
    forall a | a in regs && regs[a].kind.Used? && (a < p || q <= a)
      ensures UserSame(c, c', regs, a)
    {
      assert a in r && r[a].kind.Used? && NextOf(r, a) == NextOf(regs, a);
    }
  }

  /** The allocated chunks and their sizes. */
  ghost function Live(regs: Regions): map<int, int> {
    map a | a in regs && regs[a].kind.Used? :: regs[a].size
  }

  lemma LiveAlloc(regs: Regions, p: int, x: int, q: int, k2: Kind)
    requires CanEdit(regs, p, x, q, Used, k2) && regs[p].kind.Free? && (x < q ==> k2.Free?)
    requires forall b :: b in regs && p < b < q ==> !regs[b].kind.Used?
    ensures Live(Edit(regs, p, x, q, Used, k2)) == Live(regs)[p := x - p] && p !in Live(regs)
  {
  }

  lemma LiveFree(regs: Regions, p: int, pp: int, q: int)
    requires CanEdit(regs, pp, q, q, Free, Free) && p in regs && pp <= p < q
    requires forall a :: a in regs && pp <= a < q && a != p ==> !regs[a].kind.Used?
    ensures Live(Edit(regs, pp, q, q, Free, Free)) == Live(regs) - {p}
  {
  }

  // ----- the steps of an allocation

  lemma LooseFree(c: Chunks, regs: Regions, lo: int, hi: int, h: Pool, v: int)
    requires SegOk(c, regs, lo, hi, h) && v in h.loose
    ensures IsFree(regs, v) && v != h.top && v !in h.binned && (h.dvsize != 0 ==> v != h.dv)
  {
    hide Heads, Tiled, Coalesced, Aligned16;
    assert Holds(h, v);
  }

  lemma CarveFacts(c: Chunks, regs: Regions, lo: int, hi: int, h: Pool, v: int)
    requires SegOk(c, regs, lo, hi, h) && IsFree(regs, v)
    ensures lo + MIN_REGION <= v && MIN_REGION <= regs[v].size && regs[v].size % 16 == 0 &&
      At(c, v).size == regs[v].size
    ensures NextOf(regs, v) in regs && !IsFree(regs, NextOf(regs, v)) && NextOf(regs, v) <= hi
    ensures forall b :: b in regs && v < b ==> NextOf(regs, v) <= b
    ensures forall b :: b in h.binned ==> b in regs && b != NextOf(regs, v)
  {
    ChunkFacts(c, regs, lo, hi, h, v);
    forall b | b in h.binned
      ensures IsFree(regs, b)
    {
      assert Holds(h, b);
    }
  }

  lemma WholeStep(c: Chunks, regs: Regions, lo: int, hi: int, h: Pool, v: int)
    requires SegOk(c, regs, lo, hi, h) && v in h.loose && v in regs
    ensures NextOf(regs, v) in regs && v < NextOf(regs, v)
    ensures var c', q := SetInuseAndPinuse(c, v, regs[v].size), NextOf(regs, v);
      && SegOk(c', Edit(regs, v, q, q, Used, Used), lo, hi, h.(loose := h.loose - {v}))
      && HeadsOnly(c, c', {v, q}) && UserKept(c, c', regs, v, q) && Carved(regs, Edit(regs, v, q, q, Used, Used), v, q)
      && Live(Edit(regs, v, q, q, Used, Used)) == Live(regs)[v := regs[v].size] && v !in Live(regs)
  {
    hide Tiled, Coalesced, Aligned16, Heads, Cover, Edit, Written, HeadsOnly, SetInuseAndPinuse, Live;
    LooseFree(c, regs, lo, hi, h, v);
    CarveFacts(c, regs, lo, hi, h, v);
    var c', q := SetInuseAndPinuse(c, v, regs[v].size), NextOf(regs, v);
    WholeWritten(c, regs, lo, hi, h, v);
    WholeCover(regs, lo, hi, h, v);
    EditSeg(c, c', regs, lo, hi, h, v, q, q, Used, Used, h.(loose := h.loose - {v}));
    WiderHeads(c, c', {v, q}, {v, q, q});
    WrittenUser(c, c', regs, lo, hi, v, q, q, Used, Used);
    LiveAlloc(regs, v, q, q, Used);
  }

  lemma WiderHeads(c: Chunks, c': Chunks, at: set<int>, at': set<int>)
    requires HeadsOnly(c, c', at) && at <= at'
    ensures HeadsOnly(c, c', at')
  {
  }

  lemma SplitStep(c: Chunks, regs: Regions, lo: int, hi: int, h: Pool, v: int, nb: int)
    requires SegOk(c, regs, lo, hi, h) && v in h.loose && v in regs
    requires MIN_REGION <= nb && nb + MIN_REGION <= regs[v].size && nb % 16 == 0
    ensures NextOf(regs, v) in regs && v < v + nb < NextOf(regs, v)
    ensures var c', q := SetSizeOfFree(SetSizeOfInuse(c, v, nb), v + nb, regs[v].size - nb), NextOf(regs, v);
      && SegOk(c', Edit(regs, v, v + nb, q, Used, Free), lo, hi, h.(loose := h.loose - {v} + {v + nb}))
      && HeadsOnly(c, c', {v, v + nb, q}) && UserKept(c, c', regs, v, q) &&
        Carved(regs, Edit(regs, v, v + nb, q, Used, Free), v, v + nb)
      && Live(Edit(regs, v, v + nb, q, Used, Free)) == Live(regs)[v := nb] && v !in Live(regs)
      && v + nb !in h.binned
  {
    hide Tiled, Coalesced, Aligned16, Heads, Cover, Edit, Written, HeadsOnly, SetSizeOfFree, SetSizeOfInuse, Live;
    LooseFree(c, regs, lo, hi, h, v);
    CarveFacts(c, regs, lo, hi, h, v);
    var c', q := SetSizeOfFree(SetSizeOfInuse(c, v, nb), v + nb, regs[v].size - nb), NextOf(regs, v);
    SplitWritten(c, regs, lo, hi, h, v, nb);
    SplitCover(regs, lo, hi, h, v, v + nb);
    EditSeg(c, c', regs, lo, hi, h, v, v + nb, q, Used, Free, h.(loose := h.loose - {v} + {v + nb}));
    WrittenUser(c, c', regs, lo, hi, v, v + nb, q, Used, Free);
    LiveAlloc(regs, v, v + nb, q, Free);
  }

  lemma EditSecond(regs: Regions, p: int, x: int, q: int)
    requires p in regs && q in regs && p < x < q
    ensures var r := Edit(regs, p, x, q, Used, Free); x in r && r[x].size == q - x
  {
  }

  /** Writing heads and feet of chunks that are in no bin leaves the bins alone. */
  lemma UnbinnedHeads(c: Chunks, c': Chunks, treebins: seq<int>, treemap: nat, smallmap: nat, rings: Rings, spot: Spots,
      at: set<int>)
    requires BinnedOk(c, treebins, treemap, smallmap, rings, spot) && HeadsOnly(c, c', at)
    requires forall a :: a in at ==> a > 0 && a !in spot
    ensures BinnedOk(c', treebins, treemap, smallmap, rings, spot)
  {
    hide BinnedOk;
    BinnedFrame(c, c', treebins, treemap, smallmap, rings, spot);
  }

  /** The free chunk at `v` was allocated up to `x`, and the rest of it, if any, is free. */
  ghost predicate Carved(regs: Regions, regs': Regions, v: int, x: int) {
    && IsFree(regs, v) && NextOf(regs, v) in regs && v < x <= NextOf(regs, v)
    && regs' == Edit(regs, v, x, NextOf(regs, v), Used, if x < NextOf(regs, v) then Free else Used)
    && CanEdit(regs, v, x, NextOf(regs, v), Used, if x < NextOf(regs, v) then Free else Used)
  }

  /** A chunk for a request of `nb` bytes was allocated at `p`, and every other allocated chunk kept as it was. */
  ghost predicate Allocated(c: Chunks, c': Chunks, regs: Regions, regs': Regions, nb: int, p: int) {
    && p !in Live(regs) && p in Live(regs') && nb <= Live(regs')[p] < nb + MIN_REGION
    && Live(regs') == Live(regs)[p := Live(regs')[p]]
    && p % 16 == 8 && UserKept(c, c', regs, 0, 0)
  }

  /** What happens before the allocation, and after it to the rest of the chunk, concerns free chunks only. */
  lemma AllocatedFrom(c: Chunks, c1: Chunks, c2: Chunks, c': Chunks, regs: Regions, regs': Regions, lo: int, hi: int,
      h: Pool, v: int, x: int, nb: int)
    requires SegOk(c1, regs, lo, hi, h) && Carved(regs, regs', v, x) && UserKept(c, c1, regs, 0, 0)
    requires UserKept(c1, c2, regs, v, NextOf(regs, v)) && UserKept(c2, c', regs', 0, 0)
    requires v !in Live(regs) && nb <= x - v < nb + MIN_REGION && Live(regs') == Live(regs)[v := x - v]
    ensures Allocated(c, c', regs, regs', nb, v)
  {
    hide Heads, Cover, Coalesced, Live, Edit, CanEdit;
    var q := NextOf(regs, v);
    assert forall b :: b in regs && v < b ==> q <= b;
    UserEdit(c2, c', regs, v, x, q, Used, if x < q then Free else Used);
  }

  lemma NoChange(c: Chunks, regs: Regions)
    ensures UserKept(c, c, regs, 0, 0)
  {
  }

  lemma HeldFree(c: Chunks, regs: Regions, lo: int, hi: int, h: Pool, v: int)
    requires SegOk(c, regs, lo, hi, h) && Holds(h, v)
    ensures IsFree(regs, v)
  {
    hide Heads, Tiled, Coalesced, Aligned16;
  }

  lemma UnbinSeg(c: Chunks, c': Chunks, regs: Regions, lo: int, hi: int, h: Pool, v: int)
    requires SegOk(c, regs, lo, hi, h) && v in h.binned && Relinked(c, c', h.binned)
    ensures SegOk(c', regs, lo, hi, h.(binned := h.binned - {v}, loose := h.loose + {v})) && UserKept(c, c', regs, 0, 0)
  {
    hide Heads, Cover, Coalesced, Aligned16, Tiled, Relinked, UserKept;
    UnbinCover(regs, h, v);
    RelinkSeg(c, c', regs, lo, hi, h, h.binned, h.(binned := h.binned - {v}, loose := h.loose + {v}));
    RelinkedUser(c, c', regs, lo, hi, h, h.binned, 0, 0);
  }

  lemma RebinSeg(c: Chunks, c': Chunks, regs: Regions, lo: int, hi: int, h: Pool, v: int)
    requires SegOk(c, regs, lo, hi, h) && v in h.loose && Relinked(c, c', h.binned + {v})
    ensures SegOk(c', regs, lo, hi, h.(binned := h.binned + {v}, loose := h.loose - {v})) && UserKept(c, c', regs, 0, 0)
  {
    hide Heads, Cover, Coalesced, Aligned16, Tiled, Relinked, UserKept;
    var h' := h.(binned := h.binned + {v}, loose := h.loose - {v});
    BinCover(regs, h, v);
    RelinkSeg(c, c', regs, lo, hi, h, h.binned + {v}, h');
    assert SegOk(c, regs, lo, hi, h');
    RelinkedUser(c, c', regs, lo, hi, h', h.binned + {v}, 0, 0);
  }

  lemma DropDvSeg(c: Chunks, regs: Regions, lo: int, hi: int, h: Pool)
    requires SegOk(c, regs, lo, hi, h) && h.dvsize != 0
    ensures SegOk(c, regs, lo, hi, h.(dv := 0, dvsize := 0, loose := h.loose + {h.dv}))
    ensures IsFree(regs, h.dv) && regs[h.dv].size == h.dvsize
  {
    DropDvCover(regs, h);
    assert Holds(h, h.dv);
  }

  lemma SetDvSeg(c: Chunks, regs: Regions, lo: int, hi: int, h: Pool, v: int)
    requires SegOk(c, regs, lo, hi, h) && h.dvsize == 0 && v in h.loose && v in regs
    ensures SegOk(c, regs, lo, hi, h.(dv := v, dvsize := regs[v].size, loose := h.loose - {v}))
  {
    LooseFree(c, regs, lo, hi, h, v);
    CarveFacts(c, regs, lo, hi, h, v);
    SetDvCover(regs, h, v);
  }

  lemma DvRange(c: Chunks, regs: Regions, lo: int, hi: int, h: Pool)
    requires SegOk(c, regs, lo, hi, h)
    ensures 0 <= h.dvsize && 0 < h.topsize <= hi - 8 && (h.dvsize != 0 ==> h.dvsize <= hi - 8)
  {
    hide Heads, Coalesced;
    assert Holds(h, h.top) && IsFree(regs, h.top);
    assert h.dvsize != 0 ==> Holds(h, h.dv);
  }

  lemma TopFacts(c: Chunks, regs: Regions, lo: int, hi: int, h: Pool)
    requires SegOk(c, regs, lo, hi, h)
    ensures IsFree(regs, h.top) && regs[h.top].size == h.topsize && NextOf(regs, h.top) in regs &&
      regs[NextOf(regs, h.top)].kind.End?
    ensures h.topsize % 16 == 0 && h.top % 16 == 8
  {
    hide Heads, Tiled, Coalesced;
    assert Holds(h, h.top);
  }

  lemma TopWritten(c: Chunks, regs: Regions, lo: int, hi: int, h: Pool, nb: int)
    requires SegOk(c, regs, lo, hi, h) && MIN_REGION <= nb < h.topsize && nb % 16 == 0
    ensures h.top in regs && NextOf(regs, h.top) in regs
    ensures var c', q := SetSizeOfInuse(SetHead(c, h.top + nb, h.topsize - nb, false, true), h.top, nb),
      NextOf(regs, h.top);
      && GoodEdit(regs, h.top, h.top + nb, q, Used, Free) && h.top + nb < q
      && Written(c, c', regs, h.top, h.top + nb, q, Used, Free) && HeadsOnly(c, c', {h.top, h.top + nb, q})
  {
    hide Cover, Heads, Tiled, Coalesced, Aligned16;
    TopFacts(c, regs, lo, hi, h);
    ChunkFacts(c, regs, lo, hi, h, h.top);
    Room16(h.top, nb, h.topsize);
  }

  lemma Room16(p: int, nb: int, size: int)
    requires p % 16 == 8 && nb % 16 == 0 && size % 16 == 0 && nb < size
    ensures (p + nb) % 16 == 8 && nb + 16 <= size
  {
  }

  lemma TopStep(c: Chunks, regs: Regions, lo: int, hi: int, h: Pool, nb: int)
    requires SegOk(c, regs, lo, hi, h) && MIN_REGION <= nb < h.topsize && nb % 16 == 0
    ensures IsFree(regs, h.top) && NextOf(regs, h.top) in regs && h.top + nb < NextOf(regs, h.top) &&
      regs[h.top].size == h.topsize
    ensures var c', q := SetSizeOfInuse(SetHead(c, h.top + nb, h.topsize - nb, false, true), h.top, nb),
      NextOf(regs, h.top);
      && SegOk(c', Edit(regs, h.top, h.top + nb, q, Used, Free), lo, hi,
        h.(top := h.top + nb, topsize := h.topsize - nb))
      && HeadsOnly(c, c', {h.top, h.top + nb, q}) && UserKept(c, c', regs, h.top, q)
      && Carved(regs, Edit(regs, h.top, h.top + nb, q, Used, Free), h.top, h.top + nb)
      && Live(Edit(regs, h.top, h.top + nb, q, Used, Free)) == Live(regs)[h.top := nb] && h.top !in Live(regs)
    ensures forall b :: b in h.binned ==> b != h.top && b != h.top + nb && b != NextOf(regs, h.top)
  {
    hide Tiled, Coalesced, Aligned16, Heads, Edit, Written, HeadsOnly, SetSizeOfInuse, SetHead, Live;
    HeldFree(c, regs, lo, hi, h, h.top);
    CarveFacts(c, regs, lo, hi, h, h.top);
    TopWritten(c, regs, lo, hi, h, nb);
    var x, q := h.top + nb, NextOf(regs, h.top);
    var c' := SetSizeOfInuse(SetHead(c, x, h.topsize - nb, false, true), h.top, nb);
    TopCover(regs, lo, hi, h, x);
    EditSeg(c, c', regs, lo, hi, h, h.top, x, q, Used, Free, h.(top := x, topsize := h.topsize - nb));
    WrittenUser(c, c', regs, lo, hi, h.top, x, q, Used, Free);
    LiveAlloc(regs, h.top, x, q, Free);
  }

  /** Chunk sizes are multiples of 16, so only every other small bin is ever used. */
  lemma EvenSlot(c: Chunks, treebins: seq<int>, treemap: nat, smallmap: nat, rings: Rings, spot: Spots, regs: Regions,
      lo: int, hi: int, h: Pool, i: int)
    requires BinnedOk(c, treebins, treemap, smallmap, rings, spot) && SegOk(c, regs, lo, hi, h) && h.binned == spot.Keys
    requires 0 <= i < NSMALLBINS && Bit(smallmap, i)
    ensures (8 * i) % 16 == 0
  {
    hide BinnedOk, SegOk, Bit;
    SmallMarked(c, treebins, treemap, smallmap, rings, spot, i);
    var x := At(c, SmallBin(i)).fd;
    SlotSize(c, treebins, treemap, smallmap, rings, spot, x);
    HeldFree(c, regs, lo, hi, h, x);
    CarveFacts(c, regs, lo, hi, h, x);
  }

  /** No free chunk holds `nb` bytes; `top` would need more, for something must be left of it. */
  ghost predicate NothingFits(regs: Regions, top: int, nb: int) {
    forall a :: IsFree(regs, a) ==> regs[a].size < nb || (a == top && regs[a].size == nb)
  }

  lemma NoneHeld(c: Chunks, regs: Regions, lo: int, hi: int, h: Pool, nb: int)
    requires SegOk(c, regs, lo, hi, h) && h.loose == {} && h.dvsize < nb && h.topsize <= nb
    requires forall y :: y in h.binned ==> At(c, y).size < nb
    ensures NothingFits(regs, h.top, nb)
  {
    hide Tiled, Coalesced, Aligned16;
    forall a | IsFree(regs, a)
      ensures regs[a].size < nb || (a == h.top && regs[a].size == nb)
    {
      assert Holds(h, a);
      if a in h.binned { hide SegOk; CarveFacts(c, regs, lo, hi, h, a); }
    }
  }

  lemma AllocatedAt(c: Chunks, c': Chunks, regs: Regions, regs': Regions, lo: int, hi: int, h: Pool, nb: int, p: int)
    requires Allocated(c, c', regs, regs', nb, p) && SegOk(c', regs', lo, hi, h)
    ensures p > 0 && (p + 8) % 16 == 0
  {
    hide Heads, Cover, Coalesced, Aligned16, HasNext, HasPrev, UserKept;
  }

  // ----- the steps of freeing

  /** The free chunks next to `p`. */
  ghost function Neighbours(regs: Regions, p: int): set<int>
    requires p in regs
  {
    (if IsFree(regs, PrevOf(regs, p)) then {PrevOf(regs, p)} else {}) + (if IsFree(regs,
        NextOf(regs, p)) then {NextOf(regs, p)} else {})
  }

  lemma FreeHeld(c: Chunks, regs: Regions, lo: int, hi: int, h: Pool, p: int)
    requires SegOk(c, regs, lo, hi, h) && p in regs && regs[p].kind.Used?
    ensures var pp, q := FreeStart(regs, p), FreeEnd(regs, p);
      && (forall a :: Holds(h, a) && pp <= a < q ==> a in Neighbours(regs, p))
      && (forall a :: a in Neighbours(regs, p) ==> pp <= a < q)
  {
    hide Heads, Aligned16;
    FreeRange(c, regs, lo, hi, h, p);
    ChunkFacts(c, regs, lo, hi, h, p);
    forall a | Holds(h, a)
      ensures IsFree(regs, a)
    {
    }
  }

  /** The chunk at `p` was freed and merged into the stretch `[pp, q)`. */
  ghost predicate Freed(c: Chunks, c': Chunks, regs: Regions, regs': Regions, p: int) {
    p in regs && Live(regs') == Live(regs) - {p} && UserKept(c, c', regs, p, NextOf(regs, p))
  }

  /** Where the stretch around a freed chunk goes: `top` swallows it if it ends there, and otherwise it is
      the new `dv` if the old one is part of it. */
  ghost predicate GivenTo(regs: Regions, p: int, top: int, dv: int, top': int, dv': int)
    requires p in regs
  {
    var pp, n := FreeStart(regs, p), NextOf(regs, p);
    if n == top then top' == pp && dv' == (if dv == pp then 0 else dv)
    else top' == top && dv' == (if dv == pp || dv == n then pp else dv)
  }

  lemma FreedFrom(c: Chunks, c': Chunks, regs: Regions, lo: int, hi: int, h: Pool, p: int, pp: int, q: int)
    requires SegOk(c, regs, lo, hi, h) && p in regs && regs[p].kind.Used? && pp == FreeStart(regs, p) &&
      q == FreeEnd(regs, p)
    requires CanEdit(regs, pp, q, q, Free, Free) && Written(c, c', regs, pp, q, q, Free, Free) &&
      HeadsOnly(c, c', {pp, q})
    ensures Freed(c, c', regs, Edit(regs, pp, q, q, Free, Free), p)
  {
    hide Heads, Cover, Aligned16, Coalesced, Edit, Written, CanEdit, Live;
    FreeRange(c, regs, lo, hi, h, p);
    WiderHeads(c, c', {pp, q}, {pp, q, q});
    WrittenUser(c, c', regs, lo, hi, pp, q, q, Free, Free);
    LiveFree(regs, p, pp, q);
  }

  lemma FreeSeg(c: Chunks, c': Chunks, regs: Regions, lo: int, hi: int, h: Pool, p: int)
    requires SegOk(c, regs, lo, hi, h) && p in regs && regs[p].kind.Used? && Neighbours(regs, p) <= h.loose
    requires var pp, q := FreeStart(regs, p), FreeEnd(regs, p);
      q in regs && !regs[q].kind.End? && c' == if At(c, q).pinuse then SetFreeWithPinuse(c, pp, q - pp,
          q) else SetSizeOfFree(c, pp, q - pp)
    ensures var pp, q := FreeStart(regs, p), FreeEnd(regs, p);
      && pp in regs && pp < q
      && SegOk(c', Edit(regs, pp, q, q, Free, Free), lo, hi, h.(loose := h.loose - Neighbours(regs, p) + {pp}))
      && HeadsOnly(c, c', {pp, q}) && Freed(c, c', regs, Edit(regs, pp, q, q, Free, Free), p)
      && pp !in h.binned && q !in h.binned && pp > 0
  {
    hide Tiled, Coalesced, Aligned16, Heads, Cover, Edit, Written, HeadsOnly, SetFreeWithPinuse, SetSizeOfFree, Live,
      Freed, UserKept, CanEdit;
    var pp, q := FreeStart(regs, p), FreeEnd(regs, p);
    FreeRange(c, regs, lo, hi, h, p);
    FreeHeld(c, regs, lo, hi, h, p);
    FreeWritten(c, c', regs, lo, hi, h, pp, q);
    var h' := h.(loose := h.loose - Neighbours(regs, p) + {pp});
    FreeCover(regs, pp, q, h, Neighbours(regs, p), h');
    EditSeg(c, c', regs, lo, hi, h, pp, q, q, Free, Free, h');
    FreedFrom(c, c', regs, lo, hi, h, p, pp, q);
    TopUnheld(regs, h);
    UnheldEnds(c, regs, lo, hi, h, p);
  }

  lemma UnheldEnds(c: Chunks, regs: Regions, lo: int, hi: int, h: Pool, p: int)
    requires SegOk(c, regs, lo, hi, h) && p in regs && regs[p].kind.Used? &&
      (forall a :: a in Neighbours(regs, p) ==> a !in h.binned)
    ensures var pp, q := FreeStart(regs, p), FreeEnd(regs, p); pp !in h.binned && q !in h.binned && pp > 0 && pp in regs
  {
    hide Heads, Aligned16;
    FreeRange(c, regs, lo, hi, h, p);
    var pp, q := FreeStart(regs, p), FreeEnd(regs, p);
    assert pp in h.binned ==> Holds(h, pp);
    assert q in h.binned ==> Holds(h, q);
  }

  lemma FreeTopSeg(c: Chunks, c': Chunks, regs: Regions, lo: int, hi: int, h: Pool, p: int)
    requires SegOk(c, regs, lo, hi, h) && p in regs && regs[p].kind.Used? && NextOf(regs, p) == h.top &&
      Neighbours(regs, p) <= h.loose + {h.top}
    requires var pp := FreeStart(regs, p); c' == SetHead(c, pp, h.top + h.topsize - pp, false, true)
    ensures var pp, q := FreeStart(regs, p), FreeEnd(regs, p);
      && pp in regs && q in regs && pp < q && q == h.top + h.topsize
      && SegOk(c', Edit(regs, pp, q, q, Free, Free), lo, hi,
        h.(top := pp, topsize := q - pp, loose := h.loose - Neighbours(regs, p)))
      && HeadsOnly(c, c', {pp, q}) && Freed(c, c', regs, Edit(regs, pp, q, q, Free, Free), p)
      && pp !in h.binned && q !in h.binned && pp > 0
  {
    hide Tiled, Coalesced, Aligned16, Heads, Cover, Edit, Written, HeadsOnly, SetHead, Live, Freed, UserKept, CanEdit;
    var pp, q := FreeStart(regs, p), FreeEnd(regs, p);
    TopFacts(c, regs, lo, hi, h);
    FreeRange(c, regs, lo, hi, h, p);
    FreeHeld(c, regs, lo, hi, h, p);
    FreeWritten(c, c', regs, lo, hi, h, pp, q);
    var gone := Neighbours(regs, p) - {h.top};
    TopUnheld(regs, h);
    assert h.loose - gone == h.loose - Neighbours(regs, p);
    var h' := h.(top := pp, topsize := q - pp, loose := h.loose - gone);
    FreeTopCover(regs, pp, q, h, gone, h');
    EditSeg(c, c', regs, lo, hi, h, pp, q, q, Free, Free, h');
    FreedFrom(c, c', regs, lo, hi, h, p, pp, q);
    UnheldEnds(c, regs, lo, hi, h, p);
  }

  lemma TopUnheld(regs: Regions, h: Pool)
    requires Cover(regs, h)
    ensures h.top !in h.loose && h.top !in h.binned && (forall a :: a in h.loose ==> a !in h.binned)
  {
  }

  /** What `dlfree` reads from the heads around the chunk at `p`. */
  lemma FreeReads(c: Chunks, regs: Regions, lo: int, hi: int, h: Pool, p: int)
    requires SegOk(c, regs, lo, hi, h) && p in regs && regs[p].kind.Used?
    ensures lo + MIN_REGION <= FreeStart(regs, p) <= p && At(c, p).size == regs[p].size && At(c, p).cinuse &&
      FreeStart(regs, p) != h.top
    ensures FreeStart(regs, p) == if At(c, p).pinuse then p else p - At(c, p).prevFoot
    ensures !At(c, p).pinuse ==> IsFree(regs, FreeStart(regs, p)) && At(c, FreeStart(regs, p)).size == At(c, p).prevFoot
    ensures var n := NextOf(regs, p);
      && p < n && n in regs && At(c, n).pinuse && (At(c, n).cinuse <==> !IsFree(regs, n)) &&
        At(c, n).size == regs[n].size
      && FreeEnd(regs, p) == (if At(c, n).cinuse then n else n + At(c, n).size) && FreeEnd(regs, p) in regs
      && (!At(c, n).cinuse && !regs[FreeEnd(regs, p)].kind.End? ==> !At(c, FreeEnd(regs, p)).pinuse)
      && (regs[FreeEnd(regs, p)].kind.End? <==> n == h.top)
    ensures Neighbours(regs,
      p) == (if At(c, p).pinuse then {} else {FreeStart(regs, p)}) + (if At(c,
      NextOf(regs, p)).cinuse then {} else {NextOf(regs, p)})
  {
    hide Heads, Tiled, Coalesced, Aligned16, Cover;
    var n, v := NextOf(regs, p), PrevOf(regs, p);
    ChunkFacts(c, regs, lo, hi, h, p);
    NotLast(c, regs, lo, hi, h, p);
    ChunkFacts(c, regs, lo, hi, h, n);
    if regs[v].kind.Free? { ChunkFacts(c, regs, lo, hi, h, v); }
    LastFree(c, regs, lo, hi, h, n);
    TopFacts(c, regs, lo, hi, h);
    if regs[n].kind.Free? && !regs[NextOf(regs, n)].kind.End? { ChunkFacts(c, regs, lo, hi, h, NextOf(regs, n)); }
  }

  /** The last chunk before the end of the segment is `top`. */
  lemma LastFree(c: Chunks, regs: Regions, lo: int, hi: int, h: Pool, n: int)
    requires SegOk(c, regs, lo, hi, h) && n in regs && Plain(regs[n].kind)
    ensures NextOf(regs, n) in regs && (regs[NextOf(regs, n)].kind.End? <==> n == h.top)
  {
    hide Heads, Coalesced, Aligned16;
    assert NextOf(regs, h.top) == h.top + h.topsize;
  }

  lemma EditUsed(regs: Regions, p: int, x: int, q: int)
    requires p in regs && q in regs && p < x < q
    ensures var r := Edit(regs, p, x, q, Used, Used); x in r && r[x].size == q - x && r[x].kind.Used?
  {
  }

  lemma EditFirst(regs: Regions, p: int, q: int)
    requires p in regs && q in regs && p < q
    ensures var r := Edit(regs, p, q, q, Free, Free); p in r && r[p].size == q - p
  {
  }

  /** Moving other free chunks between their holders, before and after, does not matter to the users. */
  lemma FreedFrame(c: Chunks, c1: Chunks, c2: Chunks, c': Chunks, regs: Regions, regs': Regions, p: int)
    requires UserKept(c, c1, regs, 0, 0) && Freed(c1, c2, regs, regs', p) && UserKept(c2, c', regs', 0, 0)
    requires p in regs && regs[p].size > 0
    ensures Freed(c, c', regs, regs', p)
  {
    var q := NextOf(regs, p);
    forall a | a in regs && regs[a].kind.Used? && (a < p || q <= a)
      ensures UserSame(c, c', regs, a)
    {
      assert UserSame(c, c1, regs, a) && UserSame(c1, c2, regs, a);
      assert a in Live(regs) - {p};
      assert a in Live(regs') && Live(regs')[a] == regs[a].size;
      assert UserSame(c2, c', regs', a);
    }
  }

  /** A free neighbour that is neither `top` nor `dv` is in a bin. */
  lemma NeighbourBinned(c: Chunks, regs: Regions, lo: int, hi: int, h: Pool, a: int)
    requires SegOk(c, regs, lo, hi, h) && IsFree(regs, a) && a != h.top && a != h.dv && a !in h.loose
    ensures a in h.binned
  {
    hide Heads, Tiled, Coalesced, Aligned16;
    assert Holds(h, a);
  }

  lemma DvFacts(c: Chunks, regs: Regions, lo: int, hi: int, h: Pool)
    requires SegOk(c, regs, lo, hi, h)
    ensures h.dv != 0 ==> h.dvsize != 0 && IsFree(regs, h.dv) && regs[h.dv].size == h.dvsize
  {
    hide Heads, Tiled, Coalesced, Aligned16;
    assert h.dvsize != 0 ==> Holds(h, h.dv);
  }

  // ----- resizing an allocated chunk in place

  /** An allocated chunk is cut at `x`, together with what lies between it and `q`. */
  lemma ResizeGood(c: Chunks, regs: Regions, lo: int, hi: int, h: Pool, p: int, nb: int, q: int, k2: Kind)
    requires SegOk(c, regs, lo, hi, h) && p in regs && regs[p].kind.Used? && MIN_REGION <= nb && nb % 16 == 0 &&
      Plain(k2)
    requires q == NextOf(regs, p) || (IsFree(regs, NextOf(regs, p)) && q == NextOf(regs, NextOf(regs, p)))
    requires nb + MIN_REGION <= q - p && (k2.Free? ==> q != NextOf(regs, p))
    ensures q in regs && GoodEdit(regs, p, p + nb, q, Used, k2) && p + nb < q
    ensures forall a :: a in regs && p <= a < q ==> a == p || a == NextOf(regs, p)
  {
    hide SegOk;
    NotLast(c, regs, lo, hi, h, p);
    ChunkFacts(c, regs, lo, hi, h, p);
    ChunkFacts(c, regs, lo, hi, h, NextOf(regs, p));
    assert (p + nb) % 16 == 8;
  }

  lemma GrowGood(c: Chunks, regs: Regions, lo: int, hi: int, h: Pool, p: int, q: int)
    requires SegOk(c, regs, lo, hi, h) && p in regs && regs[p].kind.Used?
    requires IsFree(regs, NextOf(regs, p)) && q == NextOf(regs, NextOf(regs, p))
    ensures q in regs && GoodEdit(regs, p, q, q, Used, Used) && p < q
    ensures forall a :: a in regs && p <= a < q ==> a == p || a == NextOf(regs, p)
  {
    hide SegOk;
    ChunkFacts(c, regs, lo, hi, h, p);
    ChunkFacts(c, regs, lo, hi, h, NextOf(regs, p));
    assert q % 16 == 8;
  }

  /** The free chunk after `p` was let go, and is used up or cut. */
  lemma ResizeCover(regs: Regions, p: int, x: int, q: int, k2: Kind, h: Pool, h': Pool)
    requires Cover(regs, h) && CanEdit(regs, p, x, q, Used, k2) && regs[p].kind.Used? && p < x <= q
    requires forall a :: a in regs && p <= a < q ==> a == p || a == NextOf(regs, p)
    requires p < NextOf(regs, p) < q && NextOf(regs, p) in h.loose
    requires h' == h.(loose := h.loose - {NextOf(regs, p)} + (if x < q && k2.Free? then {x} else {}))
    ensures Cover(Edit(regs, p, x, q, Used, k2), h')
  {
    hide Edit;
    var n := NextOf(regs, p);
    forall a | Holds(h, a)
      ensures a < p || q <= a || a == n
    {
      assert IsFree(regs, a);
    }
    assert Holds(h, h.top) && (h.dvsize != 0 ==> Holds(h, h.dv)) && Holds(h, n);
    assert x in h.binned ==> Holds(h, x);
    AnchoredEdit(regs, p, x, q, Used, k2, h, h');
    forall a
      ensures Holds(h', a) <==>
        if a == p then false else if a == x && x < q then k2.Free? else (a < p || q <= a) && Holds(h, a)
    {
      assert a != n && a != x ==> Holds(h', a) == Holds(h, a);
      if a == n && a != x { assert !Holds(h', a); }
      if a == x && x < q { assert !Holds(h, x) || x == n; }
      if a == p { assert !Holds(h, p); }
    }
    CoverEdit(regs, p, x, q, Used, k2, h, h');
  }

  /** An allocated chunk is cut in two allocated chunks. */
  lemma CutCover(regs: Regions, p: int, x: int, h: Pool)
    requires Cover(regs, h) && p in regs && regs[p].kind.Used? && p < x < NextOf(regs, p) &&
      CanEdit(regs, p, x, NextOf(regs, p), Used, Used)
    requires forall a :: a in regs && p <= a < NextOf(regs, p) ==> a == p || a == NextOf(regs, p)
    ensures Cover(Edit(regs, p, x, NextOf(regs, p), Used, Used), h)
  {
    hide Edit;
    var q := NextOf(regs, p);
    forall a | Holds(h, a)
      ensures a < p || q <= a
    {
      assert IsFree(regs, a);
    }
    assert Holds(h, h.top) && (h.dvsize != 0 ==> Holds(h, h.dv));
    AnchoredEdit(regs, p, x, q, Used, Used, h, h);
    CoverEdit(regs, p, x, q, Used, Used, h, h);
  }

  /** `top` is cut: its lower part goes to the allocated chunk before it. */
  lemma ResizeTopCover(regs: Regions, p: int, x: int, q: int, h: Pool, h': Pool)
    requires Cover(regs, h) && CanEdit(regs, p, x, q, Used, Free) && regs[p].kind.Used? && p < x < q
    requires forall a :: a in regs && p <= a < q ==> a == p || a == NextOf(regs, p)
    requires p < h.top == NextOf(regs, p) < q == h.top + h.topsize && h' == h.(top := x, topsize := q - x)
    ensures Cover(Edit(regs, p, x, q, Used, Free), h')
  {
    forall a | Holds(h, a)
      ensures a < p || q <= a || a == h.top
    {
      assert IsFree(regs, a);
    }
    assert h.dvsize != 0 ==> Holds(h, h.dv);
    assert x != h.top ==> !Holds(h, x);
    forall a
      ensures Holds(h', a) <==> if a == p then false else if a == x then true else (a < p || q <= a) && Holds(h, a)
    {
      assert a != h.top && a != x ==> Holds(h', a) == Holds(h, a);
      if a == h.top && a != x { assert !Holds(h', a); }
    }
    CoverEdit(regs, p, x, q, Used, Free, h, h');
  }

  /** The heads written by the four ways of resizing. */
  function ResizeHeads(c: Chunks, p: int, x: int, q: int, k2: Kind, last: bool): Chunks {
    var c1 := SetInuse(c, p, x - p);
    if x == q then c1
    else if k2.Used? then SetInuse(c1, x, q - x)
    else if last then SetHead(c1, x, q - x, false, true)
    else SetPinuse(SetSizeOfFree(c1, x, q - x), q, false)
  }

  lemma ResizeWritten(c: Chunks, regs: Regions, p: int, x: int, q: int, k2: Kind)
    requires GoodEdit(regs, p, x, q, Used, k2) && p < x <= q
    ensures var c' := ResizeHeads(c, p, x, q, k2, regs[q].kind.End?);
      Written(c, c', regs, p, x, q, Used, k2) && HeadsOnly(c, c', {p, x, q})
  {
    hide Written, HeadsOnly, SetInuse, SetHead, SetPinuse, SetSizeOfFree;
    if x == q { GrowWritten(c, regs, p, q, k2); }
    else if k2.Used? { CutWritten(c, regs, p, x, q); }
    else if regs[q].kind.End? { LastWritten(c, regs, p, x, q); }
    else { RestWritten(c, regs, p, x, q); }
  }

  lemma GrowWritten(c: Chunks, regs: Regions, p: int, q: int, k2: Kind)
    requires q in regs && p < q
    ensures Written(c, SetInuse(c, p, q - p), regs, p, q, q, Used, k2) && HeadsOnly(c, SetInuse(c, p, q - p), {p, q, q})
  {
  }

  lemma CutWritten(c: Chunks, regs: Regions, p: int, x: int, q: int)
    requires q in regs && p < x < q
    ensures var c' := SetInuse(SetInuse(c, p, x - p), x, q - x);
      Written(c, c', regs, p, x, q, Used, Used) && HeadsOnly(c, c', {p, x, q})
  {
  }

  lemma RestWritten(c: Chunks, regs: Regions, p: int, x: int, q: int)
    requires q in regs && p < x < q && !regs[q].kind.End?
    ensures var c' := SetPinuse(SetSizeOfFree(SetInuse(c, p, x - p), x, q - x), q, false);
      Written(c, c', regs, p, x, q, Used, Free) && HeadsOnly(c, c', {p, x, q})
  {
    RestAt(c, p, x, q);
  }

  /** What the three writes leave at each address. */
  lemma RestAt(c: Chunks, p: int, x: int, q: int)
    requires p < x < q
    ensures var c' := SetPinuse(SetSizeOfFree(SetInuse(c, p, x - p), x, q - x), q, false);
      && At(c', p) == At(c, p).(size := x - p, cinuse := true)
      && At(c', x) == At(c, x).(size := q - x, cinuse := false, pinuse := true)
      && At(c', q) == At(c, q).(pinuse := false, prevFoot := q - x)
      && (forall a :: a != p && a != x && a != q ==> At(c', a) == At(c, a))
  {
  }

  lemma LastWritten(c: Chunks, regs: Regions, p: int, x: int, q: int)
    requires q in regs && p < x < q && regs[q].kind.End?
    ensures var c' := SetHead(SetInuse(c, p, x - p), x, q - x, false, true);
      Written(c, c', regs, p, x, q, Used, Free) && HeadsOnly(c, c', {p, x, q})
  {
  }

  /** The chunk at `p` now ends at `x`; every other allocated chunk, and what is stored at `p`, is as it was. */
  ghost predicate Resized(c: Chunks, c': Chunks, regs: Regions, p: int) {
    && p in regs && UserKept(c, c', regs, p, NextOf(regs, p))
    && At(c', p).fd == At(c, p).fd && At(c', p).bk == At(c, p).bk && At(c', p).left == At(c, p).left
    && At(c', p).right == At(c, p).right && At(c', p).parent == At(c, p).parent && At(c', p).index == At(c, p).index
  }

  lemma ResizeUser(c: Chunks, c': Chunks, regs: Regions, lo: int, hi: int, p: int, x: int, q: int, k2: Kind)
    requires Tiled(regs, lo, hi) && GoodEdit(regs, p, x, q, Used, k2) && regs[p].kind.Used? && p < q
    requires Written(c, c', regs, p, x, q, Used, k2) && HeadsOnly(c, c', {p, x, q})
    requires forall a :: a in regs && p <= a < q ==> a == p || (a == NextOf(regs, p) && !regs[a].kind.Used?)
    ensures Resized(c, c', regs, p)
    ensures Live(Edit(regs, p, x, q, Used, k2)) == if x < q &&
      k2.Used? then Live(regs)[p := x - p][x := q - x] else Live(regs)[p := x - p]
    ensures p < x < q ==> x !in Live(regs)
  {
    WrittenUser(c, c', regs, lo, hi, p, x, q, Used, k2);
    ResizeLive(regs, p, x, q, k2);
  }

  lemma ResizeLive(regs: Regions, p: int, x: int, q: int, k2: Kind)
    requires CanEdit(regs, p, x, q, Used, k2) && regs[p].kind.Used? && p < q
    requires forall a :: a in regs && p < a < q ==> !regs[a].kind.Used?
    ensures Live(Edit(regs, p, x, q, Used, k2)) == if x < q &&
      k2.Used? then Live(regs)[p := x - p][x := q - x] else Live(regs)[p := x - p]
    ensures p < x < q ==> x !in Live(regs)
  {
  }

  lemma ResizeSeg(c: Chunks, regs: Regions, lo: int, hi: int, h: Pool, p: int, x: int, q: int, k2: Kind, h': Pool)
    requires SegOk(c, regs, lo, hi, h) && GoodEdit(regs, p, x, q, Used, k2) && p < x <= q && regs[p].kind.Used?
    requires forall a :: a in regs && p <= a < q ==> a == p || (a == NextOf(regs, p) && !regs[a].kind.Used?)
    requires Cover(Edit(regs, p, x, q, Used, k2), h')
    ensures var c' := ResizeHeads(c, p, x, q, k2, regs[q].kind.End?); var r := Edit(regs, p, x, q, Used, k2);
      && SegOk(c', r, lo, hi, h') && HeadsOnly(c, c', {p, x, q}) && Resized(c, c', regs, p)
      && Live(r) == (if x < q && k2.Used? then Live(regs)[p := x - p][x := q - x] else Live(regs)[p := x - p])
    ensures p < x < q ==> x !in Live(regs)
  {
    hide Tiled, Coalesced, Aligned16, Heads, Cover, Edit, Written, HeadsOnly, ResizeHeads, Live, Resized;
    var c' := ResizeHeads(c, p, x, q, k2, regs[q].kind.End?);
    ResizeWritten(c, regs, p, x, q, k2);
    EditSeg(c, c', regs, lo, hi, h, p, x, q, Used, k2, h');
    ResizeUser(c, c', regs, lo, hi, p, x, q, k2);
  }

  /** The remainder that is cut off a chunk is freed in a second step. */
  lemma ResizedThenFreed(c: Chunks, c1: Chunks, c2: Chunks, regs: Regions, regs1: Regions, regs2: Regions, lo: int,
      hi: int, h: Pool, p: int, x: int, q: int)
    requires SegOk(c, regs, lo, hi, h) && GoodEdit(regs, p, x, q, Used, Used) && regs[p].kind.Used? && p < x < q
    requires regs1 == Edit(regs, p, x, q, Used, Used) && Resized(c, c1, regs, p) && Freed(c1, c2, regs1, regs2, x)
    requires forall a :: a in regs && p <= a < q ==> a == p || (a == NextOf(regs, p) && !regs[a].kind.Used?)
    requires Live(regs1) == Live(regs)[p := x - p][x := q - x] && x !in Live(regs)
    ensures Resized(c, c2, regs, p) && Live(regs2) == Live(regs)[p := x - p]
  {
    hide CanEdit, Live, Heads, Cover, Coalesced, Aligned16;
    assert p in regs1 && regs1[p].kind.Used?;
    assert UserSame(c1, c2, regs1, p);
    forall a | a in regs && regs[a].kind.Used? && (a < p || NextOf(regs, p) <= a)
      ensures UserSame(c, c2, regs, a)
    {
      assert a < p || q <= a;
      assert UserSame(c, c1, regs, a);
      assert a in regs1 && regs1[a].kind.Used? && NextOf(regs1, a) == NextOf(regs, a);
      assert UserSame(c1, c2, regs1, a);
    }
    assert Live(regs)[p := x - p][x := q - x] - {x} == Live(regs)[p := x - p];
  }

  lemma CutQuiet(c: Chunks, p: int, x: int, q: int, last: bool)
    requires p < x < q
    ensures ResizeHeads(c, p, x, q, Used, last) == SetInuse(SetInuse(c, p, x - p), x, q - x)
    ensures At(c, q).pinuse ==> At(ResizeHeads(c, p, x, q, Used, last), q) == At(c, q)
  {
  }

  /** Writing heads leaves the bins alone, as far as the binned chunks among them do not change. */
  lemma QuietHeads(c: Chunks, c': Chunks, treebins: seq<int>, treemap: nat, smallmap: nat, rings: Rings, spot: Spots,
      at: set<int>)
    requires BinnedOk(c, treebins, treemap, smallmap, rings, spot) && HeadsOnly(c, c', at)
    requires forall a :: a in at ==> a > 0 && (a in spot ==> At(c', a) == At(c, a))
    ensures BinnedOk(c', treebins, treemap, smallmap, rings, spot)
  {
    hide BinnedOk;
    BinnedFrame(c, c', treebins, treemap, smallmap, rings, spot);
  }

  /** What a chunk is cut from: itself, or itself and the free chunk after it. */
  lemma SplitOffCover(c: Chunks, regs: Regions, lo: int, hi: int, h: Pool, p: int, x: int, q: int)
    requires SegOk(c, regs, lo, hi, h) && p in regs && regs[p].kind.Used? && GoodEdit(regs, p, x, q, Used, Used) &&
      p < x < q
    requires if h.loose == {} then q == NextOf(regs, p)
             else h.loose == {NextOf(regs, p)} && IsFree(regs, NextOf(regs, p)) && q == NextOf(regs, NextOf(regs, p))
    requires forall a :: a in regs && p <= a < q ==> a == p || a == NextOf(regs, p)
    ensures Cover(Edit(regs, p, x, q, Used, Used), h.(loose := {}))
    ensures q in h.binned ==> At(c, q).pinuse
    ensures p !in h.binned && x !in h.binned && p > 0
    ensures forall a :: a in regs && p <= a < q ==> a == p || (a == NextOf(regs, p) && !regs[a].kind.Used?)
  {
    hide Edit, Heads;
    var n := NextOf(regs, p);
    ChunkFacts(c, regs, lo, hi, h, p);
    forall a | a in h.binned
      ensures IsFree(regs, a) && (a != n || h.loose == {})
    {
      assert Holds(h, a);
    }
    if h.loose == {} {
      CutCover(regs, p, x, h);
      FreeReads(c, regs, lo, hi, h, p);
    } else {
      ChunkFacts(c, regs, lo, hi, h, n);
      assert h.loose - {n} + {} == {};
      ResizeCover(regs, p, x, q, Used, h, h.(loose := {}));
    }
    assert x in h.binned ==> Holds(h, x);
    assert p in h.binned ==> Holds(h, p);
    assert q in h.binned ==> Holds(h, q);
  }

  /** Whether the chunk at `p` can be made `nb` bytes large where it is. */
  ghost predicate RoomFor(regs: Regions, top: int, p: int, nb: int)
    requires p in regs
  {
    var n := NextOf(regs, p);
    regs[p].size >= nb ||
        (IsFree(regs, n) && (if n == top then regs[p].size + regs[n].size > nb else regs[p].size + regs[n].size >= nb))
  }

  lemma KeptSize(c: Chunks, regs: Regions, p: int)
    requires p in regs && regs[p].kind.Used?
    ensures p in Live(regs) && Live(regs)[p] == regs[p].size && Live(regs) == Live(regs)[p := regs[p].size] &&
      Resized(c, c, regs, p)
  {
  }

  lemma LiveHas(regs: Regions, regs': Regions, p: int, s: int)
    requires Live(regs') == Live(regs)[p := s]
    ensures p in Live(regs') && Live(regs')[p] == s
  {
    hide Live;
  }

  lemma ExtendRoom(c: Chunks, regs: Regions, lo: int, hi: int, h: Pool, p: int, nb: int)
    requires SegOk(c, regs, lo, hi, h) && p in regs && regs[p].kind.Used? && NextOf(regs, p) == h.top && nb % 16 == 0 &&
      nb < regs[p].size + h.topsize
    ensures nb + MIN_REGION <= regs[p].size + h.topsize && MIN_REGION <= regs[p].size
  {
    hide Heads, Cover, Coalesced;
    TopFacts(c, regs, lo, hi, h);
    ChunkFacts(c, regs, lo, hi, h, p);
    Room16(p, nb, regs[p].size + h.topsize);
  }

  lemma ResizeTopSeg(c: Chunks, regs: Regions, lo: int, hi: int, h: Pool, p: int, x: int, q: int)
    requires SegOk(c, regs, lo, hi, h) && GoodEdit(regs, p, x, q, Used, Free) && p < x < q && regs[p].kind.Used?
    requires forall a :: a in regs && p <= a < q ==> a == p || a == NextOf(regs, p)
    requires p < h.top == NextOf(regs, p) < q == h.top + h.topsize
    ensures var c' := SetHead(SetInuse(c, p, x - p), x, q - x, false, true); var r := Edit(regs, p, x, q, Used, Free);
      && SegOk(c', r, lo, hi, h.(top := x, topsize := q - x)) && HeadsOnly(c, c', {p, x, q}) && Resized(c, c', regs, p)
      && Live(r) == Live(regs)[p := x - p]
    ensures p > 0 && p !in h.binned && x !in h.binned && q !in h.binned
  {
    hide Heads, Coalesced, Aligned16, Tiled, Edit, HeadsOnly, SetHead, SetInuse, Live, Resized;
    TopFacts(c, regs, lo, hi, h);
    ResizeTopCover(regs, p, x, q, h, h.(top := x, topsize := q - x));
    ResizeSeg(c, regs, lo, hi, h, p, x, q, Free, h.(top := x, topsize := q - x));
    BinnedElsewhere(c, regs, lo, hi, h, p, x, q);
  }

  /** The free chunk after `p` is held by nothing, and is used up or cut. */
  lemma ResizeLooseSeg(c: Chunks, regs: Regions, lo: int, hi: int, h: Pool, p: int, x: int, q: int, k2: Kind)
    requires SegOk(c, regs, lo, hi, h) && GoodEdit(regs, p, x, q, Used, k2) && p < x <= q && regs[p].kind.Used? &&
      (x < q ==> k2.Free?)
    requires forall a :: a in regs && p <= a < q ==> a == p || a == NextOf(regs, p)
    requires h.loose == {NextOf(regs, p)} && q == NextOf(regs, p) + regs[NextOf(regs, p)].size
    ensures var c' := ResizeHeads(c, p, x, q, k2, false); var r := Edit(regs, p, x, q, Used, k2);
      && SegOk(c', r, lo, hi, h.(loose := if x < q then {x} else {})) && HeadsOnly(c, c', {p, x, q}) &&
        Resized(c, c', regs, p)
      && Live(r) == Live(regs)[p := x - p]
    ensures p > 0 && p !in h.binned && x !in h.binned && q !in h.binned
  {
    hide Heads, Coalesced, Aligned16, Edit, HeadsOnly, ResizeHeads, Live, Resized;
    var n := NextOf(regs, p);
    LooseFree(c, regs, lo, hi, h, n);
    CarveFacts(c, regs, lo, hi, h, n);
    LastFree(c, regs, lo, hi, h, n);
    var h' := h.(loose := h.loose - {n} + (if x < q && k2.Free? then {x} else {}));
    assert h'.loose == if x < q then {x} else {};
    ResizeCover(regs, p, x, q, k2, h, h');
    ResizeSeg(c, regs, lo, hi, h, p, x, q, k2, h');
    BinnedElsewhere(c, regs, lo, hi, h, p, x, q);
  }

  lemma BinnedElsewhere(c: Chunks, regs: Regions, lo: int, hi: int, h: Pool, p: int, x: int, q: int)
    requires SegOk(c, regs, lo, hi, h) && p in regs && regs[p].kind.Used? && p < x <= q
    requires forall a :: a in regs && p <= a < q ==> a == p || a == NextOf(regs, p)
    requires NextOf(regs, p) !in h.binned && IsFree(regs, NextOf(regs, p)) && q == NextOf(regs, NextOf(regs, p))
    ensures p > 0 && p !in h.binned && x !in h.binned && q !in h.binned
  {
    hide Heads, Aligned16;
    var n := NextOf(regs, p);
    CarveFacts(c, regs, lo, hi, h, n);
    forall a | a in h.binned
      ensures IsFree(regs, a)
    {
      assert Holds(h, a);
    }
  }

  lemma ResizedAfter(c: Chunks, c1: Chunks, c2: Chunks, regs: Regions, p: int)
    requires p in regs && regs[p].kind.Used? && UserKept(c, c1, regs, 0, 0) && Resized(c1, c2, regs, p)
    ensures Resized(c, c2, regs, p)
  {
    assert UserSame(c, c1, regs, p);
  }

  // ----- the fresh segment

  /** A segment whose only chunk is `top`. */
  function FirstRegs(base: int, topsize: int): Regions {
    NewBlock(map[], base - MIN_REGION, base + topsize + MIN_REGION)
  }

  lemma FirstTiled(base: int, topsize: int)
    requires MIN_REGION <= topsize
    ensures Tiled(FirstRegs(base, topsize), base - MIN_REGION, base + topsize + MIN_REGION) &&
      Coalesced(FirstRegs(base, topsize))
  {
    hide Tiled;
    var none: Regions := map[];
    assert Tiled(none, base - MIN_REGION, base - MIN_REGION) by { NoneTiled(base - MIN_REGION); }
    TiledNewBlock(none, base - MIN_REGION, base - MIN_REGION, base - MIN_REGION, base + topsize + MIN_REGION);
  }

  lemma NoneTiled(lo: int)
    ensures Tiled(map[], lo, lo)
  {
  }

  lemma FirstAligned(base: int, topsize: int)
    requires base % 16 == 8 && topsize % 16 == 0
    ensures Aligned16(FirstRegs(base, topsize))
  {
  }

  lemma FirstCover(base: int, topsize: int)
    requires MIN_REGION <= topsize
    ensures Cover(FirstRegs(base, topsize), Pool(base, topsize, 0, 0, {}, {}))
    ensures Live(FirstRegs(base, topsize)) == map[]
  {
  }

  lemma FirstSeg(c: Chunks, base: int, topsize: int)
    requires MIN_REGION < base && base % 16 == 8 && MIN_REGION <= topsize && topsize % 16 == 0
    requires At(c, base).size == topsize && !At(c, base).cinuse && At(c, base).pinuse
    ensures SegOk(c, FirstRegs(base, topsize), base - MIN_REGION, base + topsize + MIN_REGION,
      Pool(base, topsize, 0, 0, {}, {}))
    ensures Live(FirstRegs(base, topsize)) == map[]
  {
    hide Tiled, Coalesced, Aligned16, Cover, Live;
    FirstTiled(base, topsize);
    FirstAligned(base, topsize);
    FirstCover(base, topsize);
    forall a | a in FirstRegs(base, topsize)
      ensures HeadAt(c, FirstRegs(base, topsize), a)
    {
    }
  }

  /** Allocated chunks do not overlap. */
  lemma LiveApart(c: Chunks, regs: Regions, lo: int, hi: int, h: Pool, a: int, b: int)
    requires SegOk(c, regs, lo, hi, h) && a in Live(regs) && b in Live(regs) && a < b
    ensures a + Live(regs)[a] <= b
  {
  }
}
