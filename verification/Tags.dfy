/** Boundary tags: how emmalloc's regions show in memory, and which writes leave them alone. */
module Tags {
  import opened FreeLists
  import opened Regions

  /** The word at the ceiling of a region: its size, with FREE_REGION_FLAG set if it is free. */
  function Ceiling(size: int, kind: Kind): int { if kind.Free? then size + 1 else size }

  /** DECODE_CEILING_SIZE: the ceiling word without the flag. */
  function Decode(word: int): int { word - word % 2 }

  /** Both ends of every region carry its size. */
  ghost predicate Tagged(mem: Memory, regs: Regions) {
    forall a :: a in regs ==> TaggedAt(mem, a, regs[a])
  }

  ghost predicate TaggedAt(mem: Memory, a: int, r: Region) {
    && 0 <= a && MIN_REGION <= r.size && a + r.size <= |mem|
    && mem[a] == r.size && mem[a + r.size - 4] == Ceiling(r.size, r.kind)
  }

  lemma TagOf(mem: Memory, regs: Regions, a: int)
    requires Tagged(mem, regs) && a in regs
    ensures TaggedAt(mem, a, regs[a])
  {
  }

  /** The words between the two size words of every used region, and of every root, are the same. */
  ghost predicate PayloadsKept(mem: Memory, mem': Memory, regs: Regions) {
    && |mem| <= |mem'|
    && (forall a, w :: (a in regs && (regs[a].kind.Used? || regs[a].kind.Root?)
            && a + 4 <= w < a + regs[a].size - 4 && 0 <= w < |mem|) ==> mem'[w] == mem[w])
  }

  /** Every listed node is a free region. */
  ghost predicate FreeIn(free: map<int, int>, regs: Regions) {
    forall a :: a in free ==> a in regs && regs[a].kind.Free?
  }

  ghost predicate SameOutside(mem: Memory, mem': Memory, p: int, q: int) {
    && |mem'| == |mem|
    && (forall w :: 0 <= w < |mem| && (w < p || q <= w) ==> mem'[w] == mem[w])
  }

  /** Relinking free regions does not touch a size word ... */
  lemma LinksKeepTags(mem: Memory, mem': Memory, buckets: int, free: map<int, int>, regs: Regions, lo: int)
    requires Tagged(mem, regs) && Sized(regs, lo, |mem|) && Disjoint(regs)
    requires 0 < buckets && buckets + NODE_SIZE * NUM_RINGS <= lo
    requires FreeIn(free, regs) && LinksOnly(mem, mem', buckets, free)
    ensures Tagged(mem', regs)
  {
    forall a, w | a in regs && (w == a || w == a + regs[a].size - 4)
      ensures mem'[w] == mem[w]
    {
      TagIsNoLink(regs, lo, |mem|, a, w, w - 4);
      TagIsNoLink(regs, lo, |mem|, a, w, w - 8);
    }
  }

  lemma TagIsNoLink(regs: Regions, lo: int, hi: int, a: int, w: int, n: int)
    requires Sized(regs, lo, hi) && Disjoint(regs)
    requires a in regs && (w == a || w == a + regs[a].size - 4) && (w == n + 4 || w == n + 8)
    ensures n !in regs
  {
  }

  /** ... nor the payload of a used region. */
  lemma LinksKeepPayloads(mem: Memory, mem': Memory, buckets: int, free: map<int, int>, regs: Regions, lo: int)
    requires Sized(regs, lo, |mem|) && Disjoint(regs)
    requires 0 < buckets && buckets + NODE_SIZE * NUM_RINGS <= lo
    requires FreeIn(free, regs) && LinksOnly(mem, mem', buckets, free)
    ensures PayloadsKept(mem, mem', regs)
  {
    forall a, w | a in regs && (regs[a].kind.Used? || regs[a].kind.Root?) && a + 4 <= w < a + regs[a].size - 4
      ensures mem'[w] == mem[w]
    {
      PayloadIsNoLink(regs, lo, |mem|, a, w, w - 4);
      PayloadIsNoLink(regs, lo, |mem|, a, w, w - 8);
    }
  }

  lemma PayloadIsNoLink(regs: Regions, lo: int, hi: int, a: int, w: int, n: int)
    requires Sized(regs, lo, hi) && Disjoint(regs)
    requires a in regs && !regs[a].kind.Free? && a + 4 <= w < a + regs[a].size - 4 && (w == n + 4 || w == n + 8)
    ensures n in regs ==> !regs[n].kind.Free?
  {
  }

  /** Writes the size words of the new regions `[p, x)` and `[x, q)`. */
  function WriteTags(mem: Memory, p: int, x: int, q: int, k1: Kind, k2: Kind): (m: Memory)
    requires 0 <= p && p + MIN_REGION <= x && (x == q || x + MIN_REGION <= q) && q <= |mem|
    ensures |m| == |mem|
  {
    var m := mem[p := x - p][x - 4 := Ceiling(x - p, k1)];
    if x < q then m[x := q - x][q - 4 := Ceiling(q - x, k2)] else m
  }

  lemma WriteTagsOutside(mem: Memory, p: int, x: int, q: int, k1: Kind, k2: Kind)
    requires 0 <= p && p + MIN_REGION <= x && (x == q || x + MIN_REGION <= q) && q <= |mem|
    ensures SameOutside(mem, WriteTags(mem, p, x, q, k1, k2), p, q)
  {
  }

  lemma TagsEdit(mem: Memory, regs: Regions, lo: int, p: int, x: int, q: int, k1: Kind, k2: Kind)
    requires Tagged(mem, regs) && Sized(regs, lo, |mem|) && Disjoint(regs) && 0 <= lo
    requires CanEdit(regs, p, x, q, k1, k2)
    ensures 0 <= p && q <= |mem|
    ensures Tagged(WriteTags(mem, p, x, q, k1, k2), Edit(regs, p, x, q, k1, k2))
  {
    var mem' := WriteTags(mem, p, x, q, k1, k2);
    forall a | a in Edit(regs, p, x, q, k1, k2)
      ensures TaggedAt(mem', a, Edit(regs, p, x, q, k1, k2)[a])
    {
      if a < p || q <= a { TagAway(mem, mem', regs, lo, p, q, a); }
      TagEditAt(mem, regs, p, x, q, k1, k2, a);
    }
  }

  lemma TagEditAt(mem: Memory, regs: Regions, p: int, x: int, q: int, k1: Kind, k2: Kind, a: int)
    requires CanEdit(regs, p, x, q, k1, k2) && 0 <= p && q <= |mem|
    requires a in Edit(regs, p, x, q, k1, k2)
    requires a in regs && (a < p || q <= a) ==> TaggedAt(WriteTags(mem, p, x, q, k1, k2), a, regs[a])
    ensures TaggedAt(WriteTags(mem, p, x, q, k1, k2), a, Edit(regs, p, x, q, k1, k2)[a])
  {
  }

  /** Writing size words leaves the payloads of the other regions alone, and that of `p` if it grows. */
  lemma WriteTagsPayloads(mem: Memory, regs: Regions, lo: int, p: int, x: int, q: int, k1: Kind, k2: Kind,
      gone: set<int>)
    requires Sized(regs, lo, |mem|) && Disjoint(regs) && 0 <= lo && CanEdit(regs, p, x, q, k1, k2) && 0 <= p &&
      q <= |mem|
    requires forall b :: b in regs && p <= b < q && (regs[b].kind.Used? || regs[b].kind.Root?) ==>
               b in gone || (b == p && p + regs[p].size <= x)
    ensures PayloadsKept(mem, WriteTags(mem, p, x, q, k1, k2), regs - gone)
  {
  }

  /** `regs'` still has the used regions and roots of `regs`, no smaller, except for `gone`. */
  ghost predicate Survive(regs: Regions, regs': Regions, gone: set<int>) {
    forall a :: a in regs && (regs[a].kind.Used? || regs[a].kind.Root?) && a !in gone ==>
      a in regs' && regs'[a].kind == regs[a].kind && regs[a].size <= regs'[a].size
  }

  lemma PayloadsTrans(m0: Memory, m1: Memory, m2: Memory, regs: Regions, regs': Regions, gone: set<int>)
    requires PayloadsKept(m0, m1, regs - gone) && PayloadsKept(m1, m2, regs') && Survive(regs, regs', gone)
    ensures PayloadsKept(m0, m2, regs - gone)
  {
  }

  lemma PayloadsRefl(mem: Memory, regs: Regions)
    ensures PayloadsKept(mem, mem, regs)
  {
  }

  lemma PayloadsLess(mem: Memory, regs: Regions, gone: set<int>)
    ensures PayloadsKept(mem, mem, regs - gone)
  {
  }

  lemma PayloadsChain(m0: Memory, m1: Memory, m2: Memory, regs: Regions)
    requires PayloadsKept(m0, m1, regs) && PayloadsKept(m1, m2, regs)
    ensures PayloadsKept(m0, m2, regs)
  {
  }

  lemma TagAway(mem: Memory, mem': Memory, regs: Regions, lo: int, p: int, q: int, a: int)
    requires Tagged(mem, regs) && Sized(regs, lo, |mem|) && Disjoint(regs) && 0 <= lo
    requires SameOutside(mem, mem', p, q) && p in regs && a in regs && (a < p || q <= a)
    ensures TaggedAt(mem', a, regs[a])
  {
  }

  /** Writes into `[p, q)` keep the lists when no listed region is there. */
  lemma WindowKeepsRings(mem: Memory, mem': Memory, buckets: int, free: map<int, int>, rings: seq<seq<int>>, p: int,
      q: int)
    requires Rings(mem, buckets, free, rings) && SameOutside(mem, mem', p, q)
    requires buckets + NODE_SIZE * NUM_RINGS <= p
    requires forall n :: n in free ==> n + NODE_SIZE <= p || q <= n
    ensures Rings(mem', buckets, free, rings)
  {
    RingsFrame(mem, mem', buckets, free, rings);
  }
}
