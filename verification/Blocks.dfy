/** The regions of a heap tile its blocks: from each root to its end sentinel without gap or overlap. */
module Blocks {
  import opened FreeLists
  import opened Regions
  import opened Tags
  import opened HeapInvariant

  /** Each region of `w` ends where the next one starts. */
  ghost predicate Chain(regs: Regions, w: seq<int>) {
    && (forall i :: 0 <= i < |w| ==> w[i] in regs)
    && (forall i, j :: 0 <= i && j == i + 1 && j < |w| ==> w[j] == w[i] + regs[w[i]].size)
  }

  /** `w` are the regions of the block `b`, from its root to its end sentinel. */
  ghost predicate Tiles(regs: Regions, b: Block, w: seq<int>) {
    && |w| >= 2 && w[0] == b.root && w[|w| - 1] == b.end - MIN_REGION && Chain(regs, w)
    && (forall x :: x in regs && b.root <= x < b.end ==> x in w)
  }

  ghost predicate Bounds(regs: Regions, root: int, end: int) {
    root in regs && end - MIN_REGION in regs && regs[end - MIN_REGION].kind.End? && root < end - MIN_REGION
  }

  /** No end sentinel lies in `[a, e)`. */
  ghost predicate NoEnd(regs: Regions, a: int, e: int) {
    forall x :: x in regs && regs[x].kind.End? ==> !(a <= x < e)
  }

  /** Following sizes from region `a` leads through every region up to the sentinel `e`. */
  lemma {:induction false} WalkTo(regs: Regions, lo: int, hi: int, a: int, e: int) returns (w: seq<int>)
    requires Sized(regs, lo, hi) && Disjoint(regs) && HasNext(regs) && a in regs && e in regs && a <= e &&
      NoEnd(regs, a, e)
    ensures |w| > 0 && w[0] == a && w[|w| - 1] == e && Chain(regs, w)
    ensures forall x :: x in regs && a <= x <= e ==> x in w
    decreases e - a
  {
    if a == e {
      w := [a];
    } else {
      hide Chain;
      var n := NextOf(regs, a);
      var rest := WalkTo(regs, lo, hi, n, e);
      w := [a] + rest;
      ChainCons(regs, a, rest);
      forall x | x in regs && a <= x <= e
        ensures x in w
      {
        if x != a { assert n <= x; assert x in rest; }
      }
    }
  }

  lemma ChainCons(regs: Regions, a: int, w: seq<int>)
    requires a in regs && Chain(regs, w) && |w| > 0 && w[0] == NextOf(regs, a)
    ensures Chain(regs, [a] + w)
  {
    var v := [a] + w;
    forall i, j | 0 <= i && j == i + 1 && j < |v|
      ensures v[j] == v[i] + regs[v[i]].size
    {
      assert v[j] == w[i];
    }
  }

  /** No sentinel of another block lies inside a block. */
  lemma BlockNoEnd(mem: Memory, head: int, regs: Regions, blocks: seq<Block>, k: int)
    requires Roots(mem, head, regs, blocks) && 0 <= k < |blocks|
    ensures Bounds(regs, blocks[k].root, blocks[k].end) && NoEnd(regs, blocks[k].root, blocks[k].end - MIN_REGION)
  {
    var b := blocks[k];
    assert BlockOk(mem, regs, b, NextRoot(blocks, k));
    forall x | x in regs && regs[x].kind.End?
      ensures !(b.root <= x < b.end - MIN_REGION)
    {
      assert HasEnd(blocks, x + MIN_REGION);
      var j :| 0 <= j < |blocks| && blocks[j].end == x + MIN_REGION;
      assert BlockOk(mem, regs, blocks[j], NextRoot(blocks, j));
    }
  }

  lemma RegionsTile(mem: Memory, head: int, lo: int, hi: int, regs: Regions, blocks: seq<Block>,
      k: int) returns (w: seq<int>)
    requires Tiled(regs, lo, hi) && Roots(mem, head, regs, blocks) && 0 <= k < |blocks|
    ensures Tiles(regs, blocks[k], w)
  {
    hide Roots, Chain, Sized, Disjoint, HasNext, HasPrev, Tiles;
    BlockNoEnd(mem, head, regs, blocks, k);
    var b := blocks[k];
    w := WalkBlock(regs, lo, hi, b.root, b.end);
  }

  lemma WalkBlock(regs: Regions, lo: int, hi: int, root: int, end: int) returns (w: seq<int>)
    requires Sized(regs, lo, hi) && Disjoint(regs) && HasNext(regs) && Bounds(regs, root, end) &&
      NoEnd(regs, root, end - MIN_REGION)
    ensures Tiles(regs, Block(root, end), w)
  {
    hide Chain, HasNext;
    var e := end - MIN_REGION;
    w := WalkTo(regs, lo, hi, root, e);
    assert forall x :: x in regs && root <= x < end ==> x <= e;
  }

  lemma {:induction false} FindBlock(mem: Memory, head: int, lo: int, hi: int, regs: Regions, blocks: seq<Block>,
      a: int) returns (k: int)
    requires Tiled(regs, lo, hi) && Roots(mem, head, regs, blocks) && a in regs
    ensures 0 <= k < |blocks| && blocks[k].root <= a && a + regs[a].size <= blocks[k].end
    decreases a - lo
  {
    hide Disjoint, HasNext, Roots;
    if regs[a].kind.Root? {
      k := RootBlock(mem, head, regs, blocks, a);
    } else {
      k := FindBlock(mem, head, lo, hi, regs, blocks, PrevOf(regs, a));
    }
    BlockNoEnd(mem, head, regs, blocks, k);
    StaysInside(regs, lo, hi, blocks[k].root, blocks[k].end, a);
  }

  lemma RootBlock(mem: Memory, head: int, regs: Regions, blocks: seq<Block>, a: int) returns (k: int)
    requires Roots(mem, head, regs, blocks) && a in regs && regs[a].kind.Root?
    ensures 0 <= k < |blocks| && blocks[k].root == a
  {
    assert HasRoot(blocks, a);
    k :| 0 <= k < |blocks| && blocks[k].root == a;
  }

  lemma StaysInside(regs: Regions, lo: int, hi: int, root: int, end: int, a: int)
    requires Sized(regs, lo, hi) && Disjoint(regs) && HasPrev(regs) && a in regs && Bounds(regs, root, end)
    requires a == root || (!regs[a].kind.Root? && NextOf(regs, PrevOf(regs, a)) <= end)
    ensures a + regs[a].size <= end
  {
    assert a <= end - MIN_REGION;
  }

  /** Every block is tiled by the regions in it. */
  lemma BlockTiled(l: Layout, mem: Memory, head: int, used: nat, regs: Regions, blocks: seq<Block>,
      rings: seq<seq<int>>, k: int)
      returns (w: seq<int>)
    requires HeapOk(l, mem, head, used, regs, blocks, rings) && 0 <= k < |blocks|
    ensures Tiles(regs, blocks[k], w)
  {
    hide Tiled, Roots, Tagged, Rings, Masked, Aligned, Coalesced, LayoutOk, Tiles;
    w := RegionsTile(mem, head, l.heapBase, |mem|, regs, blocks, k);
  }

  /** Every region is in a block. */
  lemma RegionInBlock(l: Layout, mem: Memory, head: int, used: nat, regs: Regions, blocks: seq<Block>,
      rings: seq<seq<int>>, a: int)
      returns (k: int)
    requires HeapOk(l, mem, head, used, regs, blocks, rings) && a in regs
    ensures 0 <= k < |blocks| && blocks[k].root <= a && a + regs[a].size <= blocks[k].end
  {
    hide Tiled, Roots, Tagged, Rings, Masked, Aligned, Coalesced, LayoutOk;
    k := FindBlock(mem, head, l.heapBase, |mem|, regs, blocks, a);
  }
}
