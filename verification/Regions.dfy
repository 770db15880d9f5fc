/** The subdivision of emmalloc's memory blocks into regions, by address.

    Each block runs from a root region to an end sentinel; between them used and free regions lie
    next to each other without gaps.  `prev` names the region that ends where this one starts. */
module Regions {

  datatype Kind = Root | End | Used | Free
  datatype Region = Region(size: int, kind: Kind, prev: int)
  type Regions = map<int, Region>

  /** sizeof(Region): the smallest region, and the size of both sentinels. */
  const MIN_REGION: int := 16
  /** The size words at the bottom and at the ceiling of every region. */
  const HEADER: int := 8

  function NextOf(regs: Regions, a: int): int
    requires a in regs
  {
    a + regs[a].size
  }

  function PrevOf(regs: Regions, a: int): int
    requires a in regs
  {
    regs[a].prev
  }

  ghost predicate Sized(regs: Regions, lo: int, hi: int) {
    forall a :: a in regs ==>
      && lo <= a && a + regs[a].size <= hi && MIN_REGION <= regs[a].size
      && (regs[a].kind.End? ==> regs[a].size == MIN_REGION)
  }

  ghost predicate Disjoint(regs: Regions) {
    forall a, b :: a in regs && b in regs && a < b ==> a + regs[a].size <= b
  }

  /** Every region but an end sentinel is followed by a region, which knows it as its predecessor ... */
  ghost predicate HasNext(regs: Regions) {
    forall a {:trigger NextOf(regs, a)} :: a in regs && !regs[a].kind.End? ==>
      NextOf(regs, a) in regs && !regs[NextOf(regs, a)].kind.Root? && regs[NextOf(regs, a)].prev == a
  }

  /** ... and every region but a root is preceded by one. */
  ghost predicate HasPrev(regs: Regions) {
    forall a {:trigger PrevOf(regs, a)} :: a in regs && !regs[a].kind.Root? ==>
      PrevOf(regs, a) in regs && !regs[PrevOf(regs, a)].kind.End? && PrevOf(regs, a) + regs[PrevOf(regs, a)].size == a
  }

  ghost predicate Tiled(regs: Regions, lo: int, hi: int) {
    Sized(regs, lo, hi) && Disjoint(regs) && HasNext(regs) && HasPrev(regs)
  }

  /** Every boundary is a multiple of four. */
  ghost predicate Aligned(regs: Regions) {
    forall a :: a in regs ==> a % 4 == 0 && regs[a].size % 4 == 0
  }

  /** No two free regions are adjacent. */
  ghost predicate Coalesced(regs: Regions) {
    forall a {:trigger NextOf(regs, a)} :: a in regs && regs[a].kind.Free? && NextOf(regs, a) in regs ==>
      !regs[NextOf(regs, a)].kind.Free?
  }

  // ----- the ways in which the allocator changes the subdivision

  /** Replaces the regions of `[p, q)` by `[p, x)` of kind `k1` and, unless it is empty, `[x, q)` of
      kind `k2`.  Allocating, freeing and resizing all come down to this. */
  function Edit(regs: Regions, p: int, x: int, q: int, k1: Kind, k2: Kind): (r: Regions)
    requires p in regs && q in regs && p < x <= q
    ensures forall b :: b in r <==> b == x || (b in regs && (b <= p || q <= b))
  {
    map b | b in regs.Keys + {x} && (b <= p || b == x || q <= b) ::
      if b == p then Region(x - p, k1, regs[p].prev)
      else if b == q then regs[q].(prev := if x < q then x else p)
      else if b == x then Region(q - x, k2, p)
      else regs[b]
  }

  /** The latest block grows to end at `top`: its end sentinel `e`, together with the region before
      it if that is free, becomes one free region `f`, followed by a new sentinel. */
  function Claimed(regs: Regions, e: int, f: int, top: int): (r: Regions)
    requires f in regs
  {
    (regs - {e})[f := Region(top - MIN_REGION - f, Free, regs[f].prev)][top - MIN_REGION := Region(MIN_REGION, End, f)]
  }

  /** A new block `[s, top)` with one free region. */
  function NewBlock(regs: Regions, s: int, top: int): Regions {
    regs[s := Region(MIN_REGION, Root, s)]
        [s + MIN_REGION := Region(top - s - 2 * MIN_REGION, Free, s)]
        [top - MIN_REGION := Region(MIN_REGION, End, s + MIN_REGION)]
  }

  predicate Plain(k: Kind) { k.Used? || k.Free? }

  /** A well-formed edit: whole regions are replaced, and no sentinel is lost. */
  ghost predicate CanEdit(regs: Regions, p: int, x: int, q: int, k1: Kind, k2: Kind) {
    && p in regs && q in regs && !regs[q].kind.Root?
    && p + MIN_REGION <= x && (x == q || x + MIN_REGION <= q)
    && k1.Root? == regs[p].kind.Root? && !k1.End? && Plain(k2)
    && (forall b :: b in regs && p < b < q ==> Plain(regs[b].kind))
  }

  // ----- each of them keeps the subdivision

  lemma SizedEdit(regs: Regions, lo: int, hi: int, p: int, x: int, q: int, k1: Kind, k2: Kind)
    requires Sized(regs, lo, hi) && CanEdit(regs, p, x, q, k1, k2)
    ensures Sized(Edit(regs, p, x, q, k1, k2), lo, hi)
  {
  }

  lemma DisjointEdit(regs: Regions, lo: int, hi: int, p: int, x: int, q: int, k1: Kind, k2: Kind)
    requires Sized(regs, lo, hi) && Disjoint(regs) && CanEdit(regs, p, x, q, k1, k2)
    ensures Disjoint(Edit(regs, p, x, q, k1, k2))
  {
  }

  lemma HasNextEdit(regs: Regions, lo: int, hi: int, p: int, x: int, q: int, k1: Kind, k2: Kind)
    requires Sized(regs, lo, hi) && Disjoint(regs) && HasNext(regs) && CanEdit(regs, p, x, q, k1, k2)
    ensures HasNext(Edit(regs, p, x, q, k1, k2))
  {
    var r := Edit(regs, p, x, q, k1, k2);
    forall a | a in r && !r[a].kind.End?
      ensures NextOf(r, a) in r && !r[NextOf(r, a)].kind.Root? && r[NextOf(r, a)].prev == a
    {
      NextEdit(regs, lo, hi, p, x, q, k1, k2, a);
    }
  }

  lemma NextEdit(regs: Regions, lo: int, hi: int, p: int, x: int, q: int, k1: Kind, k2: Kind, a: int)
    requires Sized(regs, lo, hi) && Disjoint(regs) && HasNext(regs) && CanEdit(regs, p, x, q, k1, k2)
    requires a in Edit(regs, p, x, q, k1, k2) && !Edit(regs, p, x, q, k1, k2)[a].kind.End?
    ensures var r := Edit(regs, p, x, q, k1, k2);
      NextOf(r, a) in r && !r[NextOf(r, a)].kind.Root? && r[NextOf(r, a)].prev == a
  {
    if a < p || q <= a { NextAway(regs, lo, hi, p, q, a); }
  }

  /** Successors and predecessors of regions outside `[p, q)` are outside it too, or `p` or `q`. */
  lemma NextAway(regs: Regions, lo: int, hi: int, p: int, q: int, a: int)
    requires Sized(regs, lo, hi) && Disjoint(regs) && HasNext(regs)
    requires p in regs && a in regs && !regs[a].kind.End? && (a < p || q <= a)
    ensures NextOf(regs, a) in regs && !regs[NextOf(regs, a)].kind.Root? && regs[NextOf(regs, a)].prev == a
    ensures NextOf(regs, a) <= p || q < NextOf(regs, a)
  {
  }

  lemma PrevAway(regs: Regions, lo: int, hi: int, p: int, q: int, a: int)
    requires Sized(regs, lo, hi) && Disjoint(regs) && HasPrev(regs)
    requires q in regs && a in regs && !regs[a].kind.Root? && (a <= p || q < a)
    ensures PrevOf(regs, a) in regs && !regs[PrevOf(regs, a)].kind.End? &&
      PrevOf(regs, a) + regs[PrevOf(regs, a)].size == a
    ensures PrevOf(regs, a) < p || q <= PrevOf(regs, a)
  {
  }

  lemma PrevEdit(regs: Regions, lo: int, hi: int, p: int, x: int, q: int, k1: Kind, k2: Kind, a: int)
    requires Sized(regs, lo, hi) && Disjoint(regs) && HasPrev(regs) && CanEdit(regs, p, x, q, k1, k2)
    requires a in Edit(regs, p, x, q, k1, k2) && !Edit(regs, p, x, q, k1, k2)[a].kind.Root?
    ensures var r := Edit(regs, p, x, q, k1, k2);
      PrevOf(r, a) in r && !r[PrevOf(r, a)].kind.End? && PrevOf(r, a) + r[PrevOf(r, a)].size == a
  {
    if a <= p || q < a { PrevAway(regs, lo, hi, p, q, a); }
  }

  lemma HasPrevEdit(regs: Regions, lo: int, hi: int, p: int, x: int, q: int, k1: Kind, k2: Kind)
    requires Sized(regs, lo, hi) && Disjoint(regs) && HasPrev(regs) && CanEdit(regs, p, x, q, k1, k2)
    ensures HasPrev(Edit(regs, p, x, q, k1, k2))
  {
    var r := Edit(regs, p, x, q, k1, k2);
    forall a | a in r && !r[a].kind.Root?
      ensures PrevOf(r, a) in r && !r[PrevOf(r, a)].kind.End? && PrevOf(r, a) + r[PrevOf(r, a)].size == a
    {
      PrevEdit(regs, lo, hi, p, x, q, k1, k2, a);
    }
  }

  lemma TiledEdit(regs: Regions, lo: int, hi: int, p: int, x: int, q: int, k1: Kind, k2: Kind)
    requires Tiled(regs, lo, hi) && CanEdit(regs, p, x, q, k1, k2)
    ensures Tiled(Edit(regs, p, x, q, k1, k2), lo, hi)
  {
    SizedEdit(regs, lo, hi, p, x, q, k1, k2);
    DisjointEdit(regs, lo, hi, p, x, q, k1, k2);
    HasNextEdit(regs, lo, hi, p, x, q, k1, k2);
    HasPrevEdit(regs, lo, hi, p, x, q, k1, k2);
  }

  lemma CoalescedEdit(regs: Regions, lo: int, hi: int, p: int, x: int, q: int, k1: Kind, k2: Kind)
    requires Sized(regs, lo, hi) && Disjoint(regs) && HasNext(regs) && HasPrev(regs) && Coalesced(regs)
    requires CanEdit(regs, p, x, q, k1, k2)
    requires k1.Free? ==> !regs[PrevOf(regs, p)].kind.Free?
    requires (if x < q then k2 else k1).Free? ==> !regs[q].kind.Free?
    requires x < q ==> !(k1.Free? && k2.Free?)
    ensures Coalesced(Edit(regs, p, x, q, k1, k2))
  {
    var r := Edit(regs, p, x, q, k1, k2);
    forall a | a in r && r[a].kind.Free? && NextOf(r, a) in r
      ensures !r[NextOf(r, a)].kind.Free?
    {
      if a < p || q <= a {
        NextAway(regs, lo, hi, p, q, a);
        if NextOf(regs, a) == p { assert PrevOf(regs, p) == a; }
      }
    }
  }

  /** `e` is the highest region, an end sentinel, and `f` is `e` or a free region just before it. */
  ghost predicate CanClaim(regs: Regions, e: int, f: int, top: int) {
    && e in regs && regs[e].kind.End? && f in regs && e + 2 * MIN_REGION <= top
    && (forall a :: a in regs ==> a + regs[a].size <= e + MIN_REGION)
    && (f == e || (regs[f].kind.Free? && f + regs[f].size == e))
  }

  lemma SizedClaimed(regs: Regions, lo: int, hi: int, e: int, f: int, top: int)
    requires Sized(regs, lo, hi) && CanClaim(regs, e, f, top)
    ensures Sized(Claimed(regs, e, f, top), lo, top)
  {
  }

  lemma DisjointClaimed(regs: Regions, lo: int, hi: int, e: int, f: int, top: int)
    requires Sized(regs, lo, hi) && Disjoint(regs) && CanClaim(regs, e, f, top)
    ensures Disjoint(Claimed(regs, e, f, top))
  {
  }

  lemma HasNextClaimed(regs: Regions, lo: int, hi: int, e: int, f: int, top: int)
    requires Sized(regs, lo, hi) && Disjoint(regs) && HasNext(regs) && CanClaim(regs, e, f, top)
    ensures HasNext(Claimed(regs, e, f, top))
  {
    var r := Claimed(regs, e, f, top);
    forall a | a in r && !r[a].kind.End?
      ensures NextOf(r, a) in r && !r[NextOf(r, a)].kind.Root? && r[NextOf(r, a)].prev == a
    {
      if a != f { var n := NextOf(regs, a); }
    }
  }

  lemma HasPrevClaimed(regs: Regions, lo: int, hi: int, e: int, f: int, top: int)
    requires Sized(regs, lo, hi) && Disjoint(regs) && HasPrev(regs) && CanClaim(regs, e, f, top)
    ensures HasPrev(Claimed(regs, e, f, top))
  {
    var r := Claimed(regs, e, f, top);
    forall a | a in r && !r[a].kind.Root?
      ensures PrevOf(r, a) in r && !r[PrevOf(r, a)].kind.End? && PrevOf(r, a) + r[PrevOf(r, a)].size == a
    {
      if a in regs { var b := PrevOf(regs, a); }
    }
  }

  lemma TiledClaimed(regs: Regions, lo: int, hi: int, e: int, f: int, top: int)
    requires Tiled(regs, lo, hi) && CanClaim(regs, e, f, top)
    ensures Tiled(Claimed(regs, e, f, top), lo, top)
  {
    SizedClaimed(regs, lo, hi, e, f, top);
    DisjointClaimed(regs, lo, hi, e, f, top);
    HasNextClaimed(regs, lo, hi, e, f, top);
    HasPrevClaimed(regs, lo, hi, e, f, top);
  }

  lemma SizedNewBlock(regs: Regions, lo: int, hi: int, s: int, top: int)
    requires Sized(regs, lo, hi) && hi <= s && s + 3 * MIN_REGION <= top && lo <= s
    ensures Sized(NewBlock(regs, s, top), lo, top)
  {
  }

  lemma DisjointNewBlock(regs: Regions, lo: int, hi: int, s: int, top: int)
    requires Sized(regs, lo, hi) && Disjoint(regs) && hi <= s && s + 3 * MIN_REGION <= top && lo <= s
    ensures Disjoint(NewBlock(regs, s, top))
  {
  }

  lemma HasNextNewBlock(regs: Regions, lo: int, hi: int, s: int, top: int)
    requires Sized(regs, lo, hi) && Disjoint(regs) && HasNext(regs) && hi <= s && s + 3 * MIN_REGION <= top && lo <= s
    ensures HasNext(NewBlock(regs, s, top))
  {
    var r := NewBlock(regs, s, top);
    forall a | a in r && !r[a].kind.End?
      ensures NextOf(r, a) in r && !r[NextOf(r, a)].kind.Root? && r[NextOf(r, a)].prev == a
    {
      if a in regs { var n := NextOf(regs, a); }
    }
  }

  lemma HasPrevNewBlock(regs: Regions, lo: int, hi: int, s: int, top: int)
    requires Sized(regs, lo, hi) && Disjoint(regs) && HasPrev(regs) && hi <= s && s + 3 * MIN_REGION <= top && lo <= s
    ensures HasPrev(NewBlock(regs, s, top))
  {
    var r := NewBlock(regs, s, top);
    forall a | a in r && !r[a].kind.Root?
      ensures PrevOf(r, a) in r && !r[PrevOf(r, a)].kind.End? && PrevOf(r, a) + r[PrevOf(r, a)].size == a
    {
      if a in regs { var b := PrevOf(regs, a); }
    }
  }

  lemma TiledNewBlock(regs: Regions, lo: int, hi: int, s: int, top: int)
    requires Tiled(regs, lo, hi) && hi <= s && s + 3 * MIN_REGION <= top && lo <= s
    ensures Tiled(NewBlock(regs, s, top), lo, top)
  {
    SizedNewBlock(regs, lo, hi, s, top);
    DisjointNewBlock(regs, lo, hi, s, top);
    HasNextNewBlock(regs, lo, hi, s, top);
    HasPrevNewBlock(regs, lo, hi, s, top);
  }

}
