/** Binning and unbinning a chunk keeps the bins in order. */
module BinSteps {
  import opened Bits
  import opened Buckets
  import opened BinMaps
  import opened TreeIndex
  import opened Places
  import opened Chunks
  import opened FreeBins
  import opened TrieSearch

  /** Heads and feet, and everything outside the chunks `at` and the list heads, are as before. */
  ghost predicate Relinked(c: Chunks, c': Chunks, at: set<int>) {
    && (forall a :: At(c', a).size == At(c, a).size && At(c', a).prevFoot == At(c, a).prevFoot
                 && At(c', a).cinuse == At(c, a).cinuse && At(c', a).pinuse == At(c, a).pinuse)
    && (forall a :: a > 0 && a !in at ==> At(c', a) == At(c, a))
  }

  // ----- sizes

  lemma SizesAdd(c: Chunks, c': Chunks, spot: Spots, q: Place, x: int)
    requires SizesOk(c, spot) && x !in spot && Relinked(c, c', spot.Keys + {x})
    requires forall a :: a in spot ==> At(c', a).index == At(c, a).index
    requires SizeAt(q, At(c', x).size, At(c', x).index)
    requires forall a :: a in spot ==> (spot[a] == q <==> At(c, a).size == At(c, x).size)
    ensures SizesOk(c', spot[x := q])
  {
  }

  lemma SizesRemove(c: Chunks, c': Chunks, spot: Spots, x: int)
    requires SizesOk(c, spot) && Relinked(c, c', spot.Keys)
    requires forall a :: a in spot ==> At(c', a).index == At(c, a).index
    ensures SizesOk(c', spot - {x})
  {
  }

  lemma OnlyOne(rings: Rings, spot: Spots, q: Place, x: int, a: int)
    requires Members(rings, spot) && q in rings && rings[q] == [x, x] && a in spot && spot[a] == q
    ensures a == x
  {
  }

  lemma SizesLift(c: Chunks, c': Chunks, rings: Rings, spot: Spots, q: Place, r: Place, x: int)
    requires Members(rings, spot) && SizesOk(c, spot) && Relinked(c, c', spot.Keys)
    requires q in rings && r in rings && rings[q] == [x, x] && Under(r, q) && r != q
    requires forall a :: a in spot ==> At(c', a).index == At(c, a).index
    ensures SizesOk(c', LiftedSpot(spot, x, q, r))
  {
    assert RingShape(r, rings[r]);
    UnderRange(r, q);
    forall a | a in spot && spot[a] == q
      ensures a == x
    {
      OnlyOne(rings, spot, q, x, a);
    }
    LiftedSizes(c, c', spot, q, r, x);
  }

  lemma LiftedSizes(c: Chunks, c': Chunks, spot: Spots, q: Place, r: Place, x: int)
    requires SizesOk(c, spot) && !q.Small? && !r.Small? && Lo(q) <= Lo(r) && Hi(r) <= Hi(q) && Bin(q) == Bin(r)
    requires forall a :: a in spot ==> At(c', a).index == At(c, a).index && At(c', a).size == At(c, a).size
    requires forall a :: a in spot && spot[a] == q ==> a == x
    ensures SizesOk(c', LiftedSpot(spot, x, q, r))
  {
    hide Lo, Hi, Bin, Index;
  }

  // ----- bin maps

  lemma MarkBound(m: nat, i: nat)
    requires m < WORD && i < 32
    ensures SetBit(m, i) < WORD && ClearBit(m, i) < WORD
  {
    Pow2Table();
    forall j: nat
      ensures Bit(SetBit(m, i), j) ==> j < 32
      ensures Bit(ClearBit(m, i), j) ==> j < 32
    {
      if j >= 32 { HighBits(m, 32, j); }
      SetBitBits(m, i, j);
      ClearBitBits(m, i, j);
    }
    Bounded(SetBit(m, i), 32);
    Bounded(ClearBit(m, i), 32);
  }

  function Treebins(treebins: seq<int>, q: Place, x: int): seq<int>
    requires q.Apex? ==> 0 <= q.bin < |treebins|
  {
    if q.Apex? then treebins[q.bin := x] else treebins
  }

  lemma BinsPlaced(treebins: seq<int>, treemap: nat, smallmap: nat, rings: Rings, q: Place, x: int)
    requires BinsOk(treebins, treemap, smallmap, rings) && q !in rings
    requires q.Apex? ==> 0 <= q.bin < NTREEBINS
    requires q.Small? ==> 0 <= q.slot < NSMALLBINS
    ensures BinsOk(Treebins(treebins, q, x), if q.Apex? then SetBit(treemap, q.bin) else treemap,
                   if q.Small? then SetBit(smallmap, q.slot) else smallmap, Placed(rings, q, x))
  {
    hide SetBit, Bit;
    if q.Apex? { MarkBound(treemap, q.bin); }
    if q.Small? { MarkBound(smallmap, q.slot); }
    var r, tm, sm := Placed(rings, q, x), if q.Apex? then SetBit(treemap, q.bin) else treemap,
        if q.Small? then SetBit(smallmap, q.slot) else smallmap;
    forall i | 0 <= i < NTREEBINS
      ensures BinOk(Treebins(treebins, q, x), tm, sm, r, i)
    {
      assert BinOk(treebins, treemap, smallmap, rings, i);
      if q.Apex? { SetBitBits(treemap, q.bin, i); }
      if q.Small? { SetBitBits(smallmap, q.slot, i); }
    }
  }

  lemma BinsDropped(treebins: seq<int>, treemap: nat, smallmap: nat, rings: Rings, q: Place)
    requires BinsOk(treebins, treemap, smallmap, rings) && q in rings
    requires q.Apex? ==> 0 <= q.bin < NTREEBINS
    requires q.Small? ==> 0 <= q.slot < NSMALLBINS
    ensures BinsOk(Treebins(treebins, q, 0), if q.Apex? then ClearBit(treemap, q.bin) else treemap,
                   if q.Small? then ClearBit(smallmap, q.slot) else smallmap, rings - {q})
  {
    hide ClearBit, Bit;
    if q.Apex? { MarkBound(treemap, q.bin); }
    if q.Small? { MarkBound(smallmap, q.slot); }
    var r, tm, sm := rings - {q}, if q.Apex? then ClearBit(treemap, q.bin) else treemap,
        if q.Small? then ClearBit(smallmap, q.slot) else smallmap;
    forall i | 0 <= i < NTREEBINS
      ensures BinOk(Treebins(treebins, q, 0), tm, sm, r, i)
    {
      assert BinOk(treebins, treemap, smallmap, rings, i);
      if q.Apex? { ClearBitBits(treemap, q.bin, i); }
      if q.Small? { ClearBitBits(smallmap, q.slot, i); }
    }
  }

  lemma BinsReplaced(treebins: seq<int>, treemap: nat, smallmap: nat, rings: Rings, q: Place, g: seq<int>)
    requires BinsOk(treebins, treemap, smallmap, rings) && q in rings && |g| > 0
    requires q.Apex? ==> 0 <= q.bin < NTREEBINS
    ensures BinsOk(Treebins(treebins, q, g[0]), treemap, smallmap, rings[q := g])
  {
    hide Bit;
    var b, r := Treebins(treebins, q, g[0]), rings[q := g];
    forall i | 0 <= i < NTREEBINS
      ensures BinOk(b, treemap, smallmap, r, i)
    {
      assert BinOk(treebins, treemap, smallmap, rings, i);
    }
  }

  // ----- a chunk at a new place of a trie

  ghost predicate Hung(c: Chunks, c': Chunks, rings: Rings, q: Place, x: int) {
    var h := UpOf(rings, q);
    && At(c', x) == At(c, x).(left := 0, right := 0, index := Bin(q), parent := h, fd := x, bk := x)
    && (q.Sub? ==> At(c', h) == WithChild(At(c, h), q.right, x))
    && (forall a :: a != x && !(q.Sub? && a == h) ==> At(c', a) == At(c, a))
  }

  ghost predicate CanHang(c: Chunks, rings: Rings, spot: Spots, q: Place, x: int) {
    && x > 0 && x !in spot && q !in rings && ValidPlace(q) && (q.Sub? ==> q.up in rings)
    && SizeAt(q, At(c, x).size, Bin(q))
    && (forall a :: a in spot ==> At(c, a).size != At(c, x).size)
  }

  lemma HungRings(c: Chunks, c': Chunks, rings: Rings, spot: Spots, q: Place, x: int)
    requires Members(rings, spot) && RingsOk(c, rings) && CanHang(c, rings, spot, q, x) && Hung(c, c', rings, q, x)
    ensures RingsOk(c', Placed(rings, q, x))
  {
    hide Members, RingsOk, UpOf, ValidPlace, Index;
    PlacedRings(c, rings, spot, q, x);
    RingsFrame(Alone(c, q, x), c', Placed(rings, q, x));
  }

  lemma HungNodes(c: Chunks, c': Chunks, rings: Rings, spot: Spots, q: Place, x: int)
    requires Members(rings, spot) && NodesOk(c, rings) && CanHang(c, rings, spot, q, x) && Hung(c, c', rings, q, x)
    ensures NodesOk(c', Placed(rings, q, x))
  {
    forall p | p in rings && !p.Small? && p !in Above(q)
      ensures SameNode(c, c', HeadOf(rings, p))
    {
      HeadSpot(rings, spot, p);
      if q.Sub? { HeadSpot(rings, spot, q.up); }
    }
    if q.Sub? { HeadSpot(rings, spot, q.up); }
    PlacedNodes(c, c', rings, q, x);
  }

  lemma HungChained(c: Chunks, c': Chunks, rings: Rings, spot: Spots, q: Place, x: int)
    requires Members(rings, spot) && ChainedOk(c, rings, spot) && CanHang(c, rings, spot, q, x) &&
      Hung(c, c', rings, q, x)
    ensures ChainedOk(c', Placed(rings, q, x), spot[x := q])
  {
    if q.Sub? { HeadSpot(rings, spot, q.up); }
  }

  lemma HungSizes(c: Chunks, c': Chunks, rings: Rings, spot: Spots, q: Place, x: int)
    requires Members(rings, spot) && SizesOk(c, spot) && CanHang(c, rings, spot, q, x) && Hung(c, c', rings, q, x)
    ensures SizesOk(c', spot[x := q]) && Relinked(c, c', spot.Keys + {x})
  {
    hide ValidPlace, Index;
    if q.Sub? { HeadSpot(rings, spot, q.up); }
    SizesAdd(c, c', spot, q, x);
  }

  lemma HangStep(c: Chunks, c': Chunks, treebins: seq<int>, treemap: nat, smallmap: nat, rings: Rings, spot: Spots,
      q: Place, x: int)
    requires BinnedOk(c, treebins, treemap, smallmap, rings, spot) && CanHang(c, rings, spot, q, x) &&
      Hung(c, c', rings, q, x)
    ensures q.Apex? ==> 0 <= q.bin < |treebins|
    ensures BinnedOk(c', Treebins(treebins, q, x), if q.Apex? then SetBit(treemap, q.bin) else treemap, smallmap,
      Placed(rings, q, x), spot[x := q])
    ensures Relinked(c, c', spot.Keys + {x})
  {
    hide Members, RingsOk, SizesOk, NodesOk, ChainedOk, Hung, UpOf, Placed, SetBit, Bit;
    PlacedMembers(rings, spot, q, x);
    HungRings(c, c', rings, spot, q, x);
    HungNodes(c, c', rings, spot, q, x);
    HungChained(c, c', rings, spot, q, x);
    HungSizes(c, c', rings, spot, q, x);
    BinsPlaced(treebins, treemap, smallmap, rings, q, x);
  }

  // ----- a chunk at an occupied place

  /** Only link fields changed, so the tries are the same. */
  lemma LinksNodes(c: Chunks, c': Chunks, rings: Rings)
    requires NodesOk(c, rings)
    requires forall a :: SameNode(c, c', a)
    ensures NodesOk(c', rings)
  {
    forall q | q in rings && !q.Small?
      ensures NodeOk(c', rings, q)
    {
      assert NodeOk(c, rings, q);
      assert SameNode(c, c', HeadOf(rings, q));
    }
  }

  /** Rings with the same heads at the same places make the same tries. */
  lemma HeadsNodes(c: Chunks, rings: Rings, rings': Rings)
    requires NodesOk(c, rings) && rings'.Keys == rings.Keys
    requires forall q :: q in rings ==> HeadOf(rings', q) == HeadOf(rings, q)
    ensures NodesOk(c, rings')
  {
    forall q | q in rings' && !q.Small?
      ensures NodeOk(c, rings', q)
    {
      assert NodeOk(c, rings, q);
    }
  }

  lemma HeadsBins(treebins: seq<int>, treemap: nat, smallmap: nat, rings: Rings, rings': Rings)
    requires BinsOk(treebins, treemap, smallmap, rings) && rings'.Keys == rings.Keys
    requires forall q :: q in rings ==> HeadOf(rings', q) == HeadOf(rings, q)
    ensures BinsOk(treebins, treemap, smallmap, rings')
  {
    hide Bit;
    forall i | 0 <= i < NTREEBINS
      ensures BinOk(treebins, treemap, smallmap, rings', i)
    {
      assert BinOk(treebins, treemap, smallmap, rings, i);
    }
  }

  /** `x` was prepared, and joins the ring at `q`. */
  ghost predicate CanChain(c: Chunks, rings: Rings, spot: Spots, q: Place, x: int) {
    && x > 0 && x !in spot && q in rings && |rings[q]| >= 2 && SizeAt(q, At(c, x).size, At(c, x).index)
    && (forall a :: a in spot && spot[a] == q ==> At(c, a).size == At(c, x).size)
    && (!q.Small? ==> At(c, x).left == 0 && At(c, x).right == 0 && At(c, x).parent == 0)
  }

  lemma ChainSizes(c: Chunks, c': Chunks, rings: Rings, spot: Spots, q: Place, x: int)
    requires Members(rings, spot) && SizesOk(c, spot) && CanChain(c, rings, spot, q, x)
    requires LinksOnly(c, c', {rings[q][0], rings[q][1], x})
    ensures SizesOk(c', spot[x := q]) && Relinked(c, c', spot.Keys + {x})
  {
    hide Index, Lo, Hi, Bin;
    NodeOwned(rings, spot, q, 0);
    NodeOwned(rings, spot, q, 1);
    assert RingShape(q, rings[q]);
    var n := rings[q][First(q)];
    assert n in spot && spot[n] == q;
    SizesAdd(c, c', spot, q, x);
  }

  lemma ChainChained(c: Chunks, c': Chunks, rings: Rings, spot: Spots, q: Place, x: int)
    requires ChainedOk(c, rings, spot) && CanChain(c, rings, spot, q, x) && (forall a :: SameNode(c, c', a))
    ensures ChainedOk(c', Chained(rings, q, x), spot[x := q])
  {
    hide Index, Lo, Hi, Bin;
    assert SameNode(c, c', x);
    forall a | a in spot
      ensures SameNode(c, c', a)
    {
    }
  }

  lemma ChainStep(c: Chunks, treebins: seq<int>, treemap: nat, smallmap: nat, rings: Rings, spot: Spots, q: Place,
      x: int)
    requires BinnedOk(c, treebins, treemap, smallmap, rings, spot) && CanChain(c, rings, spot, q, x)
    ensures BinnedOk(LinkAfter(c, HeadOf(rings, q), x), treebins, treemap, smallmap, Chained(rings, q, x), spot[x := q])
    ensures Relinked(c, LinkAfter(c, HeadOf(rings, q), x), spot.Keys + {x})
  {
    hide Members, RingsOk, SizesOk, NodesOk, ChainedOk, BinsOk, SizeAt, LinkAfter;
    var c', r := LinkAfter(c, HeadOf(rings, q), x), Chained(rings, q, x);
    ChainedMembers(rings, spot, q, x);
    ChainedRings(c, rings, spot, q, x);
    LinksSame(c, c', {rings[q][0], rings[q][1], x});
    ChainSizes(c, c', rings, spot, q, x);
    LinksNodes(c, c', rings);
    HeadsNodes(c', rings, r);
    HeadsBins(treebins, treemap, smallmap, rings, r);
    ChainChained(c, c', rings, spot, q, x);
  }

  lemma LinksSame(c: Chunks, c': Chunks, at: set<int>)
    requires LinksOnly(c, c', at)
    ensures forall a :: SameNode(c, c', a)
  {
  }

  /** Leaving a ring at a place that stays occupied by the same head. */
  lemma UnchainStep(c: Chunks, treebins: seq<int>, treemap: nat, smallmap: nat, rings: Rings, spot: Spots, q: Place,
      p: int)
    requires BinnedOk(c, treebins, treemap, smallmap, rings, spot)
    requires q in rings && 0 < p < |rings[q]| - 1 && |rings[q]| >= First(q) + 3
    ensures BinnedOk(Unlinked(c, rings[q][p]), treebins, treemap, smallmap, Unchained(rings, q, p),
      spot - {rings[q][p]})
    ensures Relinked(c, Unlinked(c, rings[q][p]), spot.Keys)
  {
    hide Members, SizesOk, NodesOk, ChainedOk, BinsOk, Unlinked, Ring;
    var x := rings[q][p];
    var c', r := Unlinked(c, x), Unchained(rings, q, p);
    UnchainedMembers(c, rings, spot, q, p);
    UnchainedRings(c, rings, spot, q, p);
    LinksSame(c, c', {rings[q][p - 1], rings[q][p + 1]});
    UnchainSizes(c, c', rings, spot, q, p);
    LinksNodes(c, c', rings);
    HeadsNodes(c', rings, r);
    HeadsBins(treebins, treemap, smallmap, rings, r);
    UnchainChained(c, c', rings, spot, r, x);
  }

  lemma UnchainSizes(c: Chunks, c': Chunks, rings: Rings, spot: Spots, q: Place, p: int)
    requires Members(rings, spot) && SizesOk(c, spot) && q in rings && 0 < p < |rings[q]| - 1
    requires LinksOnly(c, c', {rings[q][p - 1], rings[q][p + 1]})
    ensures SizesOk(c', spot - {rings[q][p]}) && Relinked(c, c', spot.Keys)
  {
    hide SizesOk;
    NodeOwned(rings, spot, q, p - 1);
    NodeOwned(rings, spot, q, p + 1);
    SizesRemove(c, c', spot, rings[q][p]);
  }

  lemma UnchainChained(c: Chunks, c': Chunks, rings: Rings, spot: Spots, rings': Rings, x: int)
    requires ChainedOk(c, rings, spot) && (forall a :: SameNode(c, c', a)) && rings'.Keys == rings.Keys
    requires forall q :: q in rings ==> HeadOf(rings', q) == HeadOf(rings, q)
    ensures ChainedOk(c', rings', spot - {x})
  {
    forall a | a in spot
      ensures SameNode(c, c', a)
    {
    }
    forall a | a in spot
      ensures HeadOf(rings', spot[a]) == HeadOf(rings, spot[a])
    {
    }
  }

  // ----- a place falls empty, or gets another head

  function WithChild(k: Chunk, right: bool, x: int): Chunk { if right then k.(right := x) else k.(left := x) }

  /** The reference to the chunk at `q` is cleared, and nothing else changes. */
  ghost predicate Cleared(c: Chunks, c': Chunks, rings: Rings, q: Place) {
    && (q.Sub? ==> At(c', UpOf(rings, q)) == WithChild(At(c, UpOf(rings, q)), q.right, 0))
    && (forall a :: !(q.Sub? && a == UpOf(rings, q)) ==> At(c', a) == At(c, a))
  }

  ghost predicate IsLeaf(rings: Rings, q: Place) {
    q in rings && !q.Small? && Sub(q, false) !in rings && Sub(q, true) !in rings
  }

  lemma ClearedNodes(c: Chunks, c': Chunks, rings: Rings, spot: Spots, q: Place)
    requires Members(rings, spot) && NodesOk(c, rings) && IsLeaf(rings, q) && Cleared(c, c', rings, q)
    ensures NodesOk(c', rings - {q})
  {
    HeadSpot(rings, spot, q);
    assert NodeOk(c, rings, q);
    forall p | p in rings && !p.Small? && p !in Above(q)
      ensures SameNode(c, c', HeadOf(rings, p))
    {
      HeadSpot(rings, spot, p);
      if q.Sub? { HeadSpot(rings, spot, q.up); }
    }
    DroppedNodes(c, c', rings, q);
  }

  lemma ClearedFrame(c: Chunks, c': Chunks, rings: Rings, spot: Spots, q: Place)
    requires Members(rings, spot) && NodesOk(c, rings) && IsLeaf(rings, q) && Cleared(c, c', rings, q)
    ensures Relinked(c, c', spot.Keys)
    ensures forall a :: At(c', a).fd == At(c, a).fd && At(c', a).bk == At(c, a).bk && At(c', a).index == At(c, a).index
  {
    HeadSpot(rings, spot, q);
    assert NodeOk(c, rings, q);
    if q.Sub? { HeadSpot(rings, spot, q.up); }
  }

  lemma ClearedChained(c: Chunks, c': Chunks, rings: Rings, spot: Spots, q: Place)
    requires Members(rings, spot) && NodesOk(c, rings) && ChainedOk(c, rings, spot) && IsLeaf(rings, q) &&
      Cleared(c, c', rings, q)
    ensures ChainedOk(c', rings, spot)
  {
    HeadSpot(rings, spot, q);
    assert NodeOk(c, rings, q);
    if q.Sub? { HeadSpot(rings, spot, q.up); }
  }

  lemma DropStep(c: Chunks, c': Chunks, treebins: seq<int>, treemap: nat, smallmap: nat, rings: Rings, spot: Spots,
      q: Place, x: int)
    requires BinnedOk(c, treebins, treemap, smallmap, rings, spot) && IsLeaf(rings, q) && rings[q] == [x, x] &&
      Cleared(c, c', rings, q)
    ensures q.Apex? ==> 0 <= q.bin < |treebins|
    ensures BinnedOk(c', Treebins(treebins, q, 0), if q.Apex? then ClearBit(treemap, q.bin) else treemap, smallmap,
      rings - {q}, spot - {x})
    ensures Relinked(c, c', spot.Keys)
  {
    hide Members, SizesOk, NodesOk, ChainedOk, Cleared, UpOf, ClearBit, Bit, Ring, ValidPlace;
    HeadSpot(rings, spot, q);
    RootRange(q);
    DroppedMembers(rings, spot, q, x);
    ClearedNodes(c, c', rings, spot, q);
    ClearedFrame(c, c', rings, spot, q);
    ClearedChained(c, c', rings, spot, q);
    ChainedDrop(c', rings, spot, q, x);
    SizesRemove(c, c', spot, x);
    RingsFrame(c, c', rings);
    BinsDropped(treebins, treemap, smallmap, rings, q);
  }

  lemma RootRange(q: Place)
    requires ValidPlace(q)
    ensures q.Apex? ==> 0 <= q.bin < NTREEBINS
  {
  }

  lemma ChainedDrop(c: Chunks, rings: Rings, spot: Spots, q: Place, x: int)
    requires Members(rings, spot) && ChainedOk(c, rings, spot) && q in rings && rings[q] == [x, x]
    ensures ChainedOk(c, rings - {q}, spot - {x})
  {
    forall a | a in spot && a != x
      ensures HeadOf(rings - {q}, spot[a]) == HeadOf(rings, spot[a])
    {
      if spot[a] == q { OnlyOne(rings, spot, q, x, a); assert false; }
    }
  }

  /** The chunk `r` takes over the trie links of the head of `q`. */
  ghost predicate TookOver(c: Chunks, c': Chunks, rings: Rings, q: Place, r: int) {
    var x := At(c, HeadOf(rings, q));
    && At(c', r) == At(c, r).(parent := x.parent, left := x.left, right := x.right)
    && (q.Sub? ==> At(c', UpOf(rings, q)) == WithChild(At(c, UpOf(rings, q)), q.right, r))
    && (x.left != 0 ==> At(c', x.left) == At(c, x.left).(parent := r))
    && (x.right != 0 ==> At(c', x.right) == At(c, x.right).(parent := r))
    && (forall a :: a != r && (a == 0 || (a != x.left && a != x.right)) && !(q.Sub? && a == UpOf(rings, q)) ==>
      At(c', a) == At(c, a))
  }

  /** Different places have different heads. */
  ghost predicate HeadsApart(rings: Rings) {
    && (forall p :: p in rings && !p.Small? ==> HeadOf(rings, p) > 0)
    && (forall p, q :: p in rings && q in rings && !p.Small? && !q.Small? && HeadOf(rings, p) == HeadOf(rings, q) ==>
      p == q)
  }

  /** `r` is the head of no place. */
  ghost predicate Spare(rings: Rings, r: int) {
    r > 0 && (forall p :: p in rings && !p.Small? ==> HeadOf(rings, p) != r)
  }

  lemma MembersApart(rings: Rings, spot: Spots)
    requires Members(rings, spot)
    ensures HeadsApart(rings)
  {
    forall p | p in rings && !p.Small?
      ensures HeadOf(rings, p) in spot && spot[HeadOf(rings, p)] == p && HeadOf(rings, p) > 0
    {
      HeadSpot(rings, spot, p);
    }
  }

  lemma TookOverNodes(c: Chunks, c': Chunks, rings: Rings, q: Place, g: seq<int>)
    requires NodesOk(c, rings) && HeadsApart(rings) && q in rings && ValidPlace(q) && |g| > 0 && Spare(rings, g[0])
    requires TookOver(c, c', rings, q, g[0])
    ensures NodesOk(c', rings[q := g])
  {
    assert NodeOk(c, rings, q);
    forall p | p in rings && !p.Small? && p !in Above(q) + {q, Sub(q, false), Sub(q, true)}
      ensures SameNode(c, c', HeadOf(rings, p))
    {
    }
    TookOverSlot(c, c', rings, q, g[0]);
    TookOverChild(c, c', rings, q, g[0], false);
    TookOverChild(c, c', rings, q, g[0], true);
    ReplacedNodes(c, c', rings, q, g);
  }

  lemma TookOverSlot(c: Chunks, c': Chunks, rings: Rings, q: Place, r: int)
    requires HeadsApart(rings) && NodeOk(c, rings, q) && ValidPlace(q) && Spare(rings, r) &&
      TookOver(c, c', rings, q, r)
    ensures SlotSet(c, c', rings, q, r)
  {
  }

  lemma TookOverChild(c: Chunks, c': Chunks, rings: Rings, q: Place, r: int, b: bool)
    requires HeadsApart(rings) && NodeOk(c, rings, q) && ValidPlace(q) && Spare(rings, r) &&
      TookOver(c, c', rings, q, r)
    ensures Reparented(c, c', rings, Sub(q, b), r)
  {
  }

  lemma TookOverFrame(c: Chunks, c': Chunks, rings: Rings, q: Place, r: int)
    requires HeadsApart(rings) && NodeOk(c, rings, q) && ValidPlace(q) && Spare(rings, r) &&
      TookOver(c, c', rings, q, r)
    ensures forall a :: At(c', a) == At(c, a).(left := At(c', a).left, right := At(c', a).right,
      parent := At(c', a).parent)
    ensures forall a :: a != r && !IsHead(rings, a) ==> At(c', a) == At(c, a)
  {
    forall a | a != r && !IsHead(rings, a)
      ensures At(c', a) == At(c, a)
    {
      NotAHead(rings, a, Sub(q, false));
      NotAHead(rings, a, Sub(q, true));
      if q.Sub? { NotAHead(rings, a, q.up); }
    }
  }

  ghost predicate IsHead(rings: Rings, a: int) {
    exists p :: p in rings && !p.Small? && HeadOf(rings, p) == a
  }

  lemma NotAHead(rings: Rings, a: int, p: Place)
    requires !IsHead(rings, a)
    ensures p in rings && !p.Small? ==> HeadOf(rings, p) != a
  {
  }

  // ----- the head of a ring leaves, and the next chunk of its size replaces it

  lemma HandStep(c: Chunks, c': Chunks, treebins: seq<int>, treemap: nat, smallmap: nat, rings: Rings, spot: Spots,
      q: Place)
    requires BinnedOk(c, treebins, treemap, smallmap, rings, spot) && q in rings && !q.Small? && |rings[q]| >= 3
    requires TookOver(Unlinked(c, rings[q][0]), c', rings, q, Beheaded(rings[q])[0])
    ensures q.Apex? ==> 0 <= q.bin < |treebins|
    ensures BinnedOk(c', Treebins(treebins, q, Beheaded(rings[q])[0]), treemap, smallmap, Handed(rings, q),
      spot - {rings[q][0]})
    ensures Relinked(c, c', spot.Keys)
  {
    hide Members, SizesOk, NodesOk, ChainedOk, TookOver, UpOf, Bit, Unlinked, Ring, ValidPlace, HeadsApart, NodeOk,
      BinOk, Spare, SameNode;
    var f := rings[q];
    var x, g := f[0], Beheaded(f);
    var c1 := Unlinked(c, x);
    HeadSpot(rings, spot, q);
    RootRange(q);
    MembersApart(rings, spot);
    HandedMembers(c, rings, spot, q);
    HandedRings(c, rings, spot, q);
    LinksSame(c, c1, {f[1], f[|f| - 2]});
    LinksNodes(c, c1, rings);
    assert NodeOk(c1, rings, q);
    ChainedSpare(c, rings, spot, q);
    TookOverNodes(c1, c', rings, q, g);
    TookOverFrame(c1, c', rings, q, g[0]);
    RingsFrame(c1, c', Handed(rings, q));
    HandFrame(c, c1, c', rings, spot, q);
    SizesRemove(c, c', spot, x);
    HandChained(c, c', rings, spot, q);
    BinsReplaced(treebins, treemap, smallmap, rings, q, g);
  }

  lemma ChainedSpare(c: Chunks, rings: Rings, spot: Spots, q: Place)
    requires Members(rings, spot) && q in rings && !q.Small? && |rings[q]| >= 3 && Ring(c, rings[q])
    ensures Spare(rings, rings[q][|rings[q]| - 2])
  {
    var r := rings[q][|rings[q]| - 2];
    forall p | p in rings && !p.Small?
      ensures HeadOf(rings, p) != r
    {
      HeadSpot(rings, spot, p);
    }
  }

  lemma HandFrame(c: Chunks, c1: Chunks, c': Chunks, rings: Rings, spot: Spots, q: Place)
    requires Members(rings, spot) && q in rings && !q.Small? && |rings[q]| >= 3
    requires LinksOnly(c, c1, {rings[q][1], rings[q][|rings[q]| - 2]})
    requires forall a :: At(c', a) == At(c1, a).(left := At(c', a).left, right := At(c', a).right,
      parent := At(c', a).parent)
    requires forall a :: a != rings[q][|rings[q]| - 2] && !IsHead(rings, a) ==> At(c', a) == At(c1, a)
    ensures Relinked(c, c', spot.Keys)
    ensures forall a :: a in spot ==> At(c', a).index == At(c, a).index
    ensures forall a :: a in spot && a != rings[q][|rings[q]| - 2] && !IsHead(rings, a) ==> SameNode(c, c', a)
  {
    NodeOwned(rings, spot, q, 1);
    NodeOwned(rings, spot, q, |rings[q]| - 2);
    forall a | a > 0 && a !in spot
      ensures !IsHead(rings, a)
    {
      UnbinnedNoHead(rings, spot, a);
    }
  }

  lemma UnbinnedNoHead(rings: Rings, spot: Spots, a: int)
    requires Members(rings, spot) && a !in spot
    ensures !IsHead(rings, a)
  {
    forall p | p in rings && !p.Small?
      ensures HeadOf(rings, p) != a
    {
      HeadSpot(rings, spot, p);
    }
  }

  lemma HandChained(c: Chunks, c': Chunks, rings: Rings, spot: Spots, q: Place)
    requires Members(rings, spot) && ChainedOk(c, rings, spot) && q in rings && !q.Small? && |rings[q]| >= 3
    requires forall a :: a in spot && a != rings[q][|rings[q]| - 2] && !IsHead(rings, a) ==> SameNode(c, c', a)
    ensures ChainedOk(c', Handed(rings, q), spot - {rings[q][0]})
  {
    var rings' := Handed(rings, q);
    forall a | a in spot && a != rings[q][0] && !spot[a].Small? && a != HeadOf(rings', spot[a])
      ensures At(c', a).left == 0 && At(c', a).right == 0 && At(c', a).parent == 0
    {
      ElsewhereNoHead(rings, spot, a);
      assert SameNode(c, c', a);
    }
  }

  lemma ElsewhereNoHead(rings: Rings, spot: Spots, a: int)
    requires Members(rings, spot) && a in spot && a != HeadOf(rings, spot[a])
    ensures !IsHead(rings, a)
  {
    forall p | p in rings && !p.Small?
      ensures HeadOf(rings, p) != a
    {
      HeadSpot(rings, spot, p);
    }
  }

  // ----- a chunk alone at an inner place leaves, and a leaf below it takes its place

  ghost predicate CanLift(rings: Rings, q: Place, r: Place, x: int) {
    q in rings && !q.Small? && rings[q] == [x, x] && IsLeaf(rings, r) && Under(r, q) && r != q
  }

  lemma LiftStep(c: Chunks, c1: Chunks, c': Chunks, treebins: seq<int>, treemap: nat, smallmap: nat, rings: Rings,
      spot: Spots, q: Place, r: Place, x: int)
    requires BinnedOk(c, treebins, treemap, smallmap, rings, spot) && CanLift(rings, q, r, x)
    requires Cleared(c, c1, rings, r) && TookOver(c1, c', rings - {r}, q, HeadOf(rings, r))
    ensures q.Apex? ==> 0 <= q.bin < |treebins|
    ensures BinnedOk(c', Treebins(treebins, q, HeadOf(rings, r)), treemap, smallmap, Lifted(rings, q, r),
      LiftedSpot(spot, x, q, r))
    ensures Relinked(c, c', spot.Keys)
  {
    hide Members, SizesOk, NodesOk, ChainedOk, TookOver, Cleared, UpOf, Bit, Ring, ValidPlace, HeadsApart, NodeOk,
      BinOk, Spare, IsLeaf, LiftedSpot, Under;
    assert r in rings && !r.Small? && r.Sub? by { LeafSub(rings, q, r, x); }
    HeadSpot(rings, spot, q);
    HeadSpot(rings, spot, r);
    RootRange(q);
    LiftedMembers(rings, spot, q, r, x);
    ClearedNodes(c, c1, rings, spot, r);
    ClearedFrame(c, c1, rings, spot, r);
    ClearedChained(c, c1, rings, spot, r);
    LiftNodes(c1, c', rings, spot, q, r, x);
    LiftFrame(c, c1, c', rings, spot, q, r);
    RingsFrame(c, c', rings);
    SizesLift(c, c', rings, spot, q, r, x);
    LiftChained(c1, c', rings, spot, q, r, x);
    BinsDropped(treebins, treemap, smallmap, rings, r);
    BinsReplaced(treebins, treemap, smallmap, rings - {r}, q, rings[r]);
  }

  lemma LeafSub(rings: Rings, q: Place, r: Place, x: int)
    requires CanLift(rings, q, r, x)
    ensures r in rings && !r.Small? && r.Sub?
  {
  }

  lemma LiftNodes(c1: Chunks, c': Chunks, rings: Rings, spot: Spots, q: Place, r: Place, x: int)
    requires Members(rings, spot) && NodesOk(c1, rings - {r}) && CanLift(rings, q, r, x)
    requires TookOver(c1, c', rings - {r}, q, HeadOf(rings, r))
    ensures NodesOk(c', Lifted(rings, q, r))
    ensures forall a :: At(c', a) == At(c1, a).(left := At(c', a).left, right := At(c', a).right,
      parent := At(c', a).parent)
    ensures forall a :: a != HeadOf(rings, r) && !IsHead(rings, a) ==> At(c', a) == At(c1, a)
  {
    hide NodesOk, TookOver, UpOf, HeadsApart, NodeOk, Spare, IsLeaf, Under, Members, ValidPlace;
    var rings1 := rings - {r};
    LeafSub(rings, q, r, x);
    HeadSpot(rings, spot, q);
    RemainingApart(rings, spot, r);
    SpareHead(rings, spot, r);
    assert NodeOk(c1, rings1, q) by { NodeAt(c1, rings1, q); }
    TookOverNodes(c1, c', rings1, q, rings[r]);
    TookOverFrame(c1, c', rings1, q, HeadOf(rings, r));
    forall a | !IsHead(rings, a)
      ensures !IsHead(rings1, a)
    {
      FewerHeads(rings, r, a);
    }
  }

  lemma FewerHeads(rings: Rings, r: Place, a: int)
    requires !IsHead(rings, a)
    ensures !IsHead(rings - {r}, a)
  {
    forall p | p in rings - {r} && !p.Small?
      ensures HeadOf(rings - {r}, p) != a
    {
      NotAHead(rings, a, p);
    }
  }

  lemma RemainingApart(rings: Rings, spot: Spots, r: Place)
    requires Members(rings, spot)
    ensures HeadsApart(rings - {r})
  {
    MembersApart(rings, spot);
  }

  lemma SpareHead(rings: Rings, spot: Spots, r: Place)
    requires Members(rings, spot) && r in rings && !r.Small?
    ensures Spare(rings - {r}, HeadOf(rings, r)) && |rings[r]| > 0 && rings[r][0] == HeadOf(rings, r)
  {
    MembersApart(rings, spot);
    HeadSpot(rings, spot, r);
  }

  lemma LiftFrame(c: Chunks, c1: Chunks, c': Chunks, rings: Rings, spot: Spots, q: Place, r: Place)
    requires Members(rings, spot) && r in rings && !r.Small? && Relinked(c, c1, spot.Keys)
    requires forall a :: At(c1, a).fd == At(c, a).fd && At(c1, a).bk == At(c, a).bk && At(c1, a).index == At(c, a).index
    requires forall a :: At(c', a) == At(c1, a).(left := At(c', a).left, right := At(c', a).right,
      parent := At(c', a).parent)
    requires forall a :: a != HeadOf(rings, r) && !IsHead(rings, a) ==> At(c', a) == At(c1, a)
    ensures Relinked(c, c', spot.Keys)
    ensures forall a :: At(c', a).fd == At(c, a).fd && At(c', a).bk == At(c, a).bk && At(c', a).index == At(c, a).index
  {
    HeadSpot(rings, spot, r);
    forall a | a > 0 && a !in spot
      ensures !IsHead(rings, a)
    {
      UnbinnedNoHead(rings, spot, a);
    }
  }

  lemma LiftChained(c1: Chunks, c': Chunks, rings: Rings, spot: Spots, q: Place, r: Place, x: int)
    requires Members(rings, spot) && ChainedOk(c1, rings, spot) && CanLift(rings, q, r, x)
    requires forall a :: a != HeadOf(rings, r) && !IsHead(rings, a) ==> At(c', a) == At(c1, a)
    ensures ChainedOk(c', Lifted(rings, q, r), LiftedSpot(spot, x, q, r))
  {
    hide Under;
    var rings', spot' := Lifted(rings, q, r), LiftedSpot(spot, x, q, r);
    forall a | a in spot' && !spot'[a].Small? && a != HeadOf(rings', spot'[a])
      ensures At(c', a).left == 0 && At(c', a).right == 0 && At(c', a).parent == 0
    {
      LiftedHead(rings, spot, q, r, x, a);
      ElsewhereNoHead(rings, spot, a);
    }
  }

  lemma LiftedHead(rings: Rings, spot: Spots, q: Place, r: Place, x: int, a: int)
    requires Members(rings, spot) && q in rings && r in rings && !q.Small? && !r.Small? && rings[q] == [x, x] &&
      a in spot && a != x
    requires a != HeadOf(Lifted(rings, q, r), LiftedSpot(spot, x, q, r)[a])
    ensures a != HeadOf(rings, spot[a]) && a != HeadOf(rings, r)
  {
    if spot[a] == q { OnlyOne(rings, spot, q, x, a); assert false; }
    HeadSpot(rings, spot, r);
  }

  // ----- small bins

  /** Small bins come and go without touching the tries. */
  lemma SmallNodes(c: Chunks, c': Chunks, rings: Rings, rings': Rings)
    requires NodesOk(c, rings) && (forall a :: SameNode(c, c', a))
    requires forall q: Place :: !q.Small? ==> (q in rings' <==> q in rings) && HeadOf(rings', q) == HeadOf(rings, q)
    requires forall q :: q in rings && !q.Small? ==> ValidPlace(q)
    ensures NodesOk(c', rings')
  {
    forall q | q in rings' && !q.Small?
      ensures NodeOk(c', rings', q)
    {
      assert NodeOk(c, rings, q);
      assert SameNode(c, c', HeadOf(rings, q));
    }
  }

  lemma PlaceSmallStep(c: Chunks, treebins: seq<int>, treemap: nat, smallmap: nat, rings: Rings, spot: Spots, i: int,
      x: int)
    requires BinnedOk(c, treebins, treemap, smallmap, rings, spot) && 0 <= i < NSMALLBINS && Small(i) !in rings
    requires x > 0 && x !in spot && At(c, x).size == 8 * i
    ensures BinnedOk(Alone(c, Small(i), x), treebins, treemap, SetBit(smallmap, i), Placed(rings, Small(i), x),
      spot[x := Small(i)])
    ensures Relinked(c, Alone(c, Small(i), x), spot.Keys + {x})
  {
    hide RingsOk, NodesOk, BinsOk, SetBit, NodeOk, Ring, ValidPlace;
    var q := Small(i);
    var c', r := Alone(c, q, x), Placed(rings, q, x);
    PlacedMembers(rings, spot, q, x);
    PlacedRings(c, rings, spot, q, x);
    LinksSame(c, c', {x, SmallBin(i)});
    SmallNodes(c, c', rings, r);
    NoneThatSmall(c, rings, spot, i, x);
    SizesAdd(c, c', spot, q, x);
    PlaceSmallChained(c, c', rings, spot, i, x);
    BinsPlaced(treebins, treemap, smallmap, rings, q, x);
  }

  lemma PlaceSmallChained(c: Chunks, c': Chunks, rings: Rings, spot: Spots, i: int, x: int)
    requires ChainedOk(c, rings, spot) && x !in spot && (forall a :: SameNode(c, c', a))
    ensures ChainedOk(c', Placed(rings, Small(i), x), spot[x := Small(i)])
  {
    forall a | a in spot
      ensures SameNode(c, c', a)
    {
    }
  }

  lemma NoneThatSmall(c: Chunks, rings: Rings, spot: Spots, i: int, x: int)
    requires Members(rings, spot) && SizesOk(c, spot) && 0 <= i < NSMALLBINS && Small(i) !in rings &&
      At(c, x).size == 8 * i
    ensures forall a :: a in spot ==> (spot[a] == Small(i) <==> At(c, a).size == At(c, x).size)
  {
    forall a | a in spot
      ensures At(c, a).size != 8 * i
    {
      assert SizeAt(spot[a], At(c, a).size, At(c, a).index);
    }
  }

  lemma DropSmallStep(c: Chunks, treebins: seq<int>, treemap: nat, smallmap: nat, rings: Rings, spot: Spots, i: int,
      x: int)
    requires BinnedOk(c, treebins, treemap, smallmap, rings, spot) && 0 <= i < NSMALLBINS && Small(i) in rings
    requires |rings[Small(i)]| == 3 && rings[Small(i)][1] == x
    ensures BinnedOk(c, treebins, treemap, ClearBit(smallmap, i), rings - {Small(i)}, spot - {x})
  {
    hide RingsOk, NodesOk, BinsOk, ClearBit, NodeOk, Ring, ValidPlace;
    DroppedMembers(rings, spot, Small(i), x);
    SmallNodes(c, c, rings, rings - {Small(i)});
    SizesRemove(c, c, spot, x);
    BinsDropped(treebins, treemap, smallmap, rings, Small(i));
    assert RingsOk(c, rings - {Small(i)}) by { FewerRings(c, rings, Small(i)); }
  }

  lemma FewerRings(c: Chunks, rings: Rings, q: Place)
    requires RingsOk(c, rings)
    ensures RingsOk(c, rings - {q})
  {
  }

  // ----- chunks that are in no bin

  /** The bins depend on the binned chunks and the list heads only. */
  lemma BinnedFrame(c: Chunks, c': Chunks, treebins: seq<int>, treemap: nat, smallmap: nat, rings: Rings, spot: Spots)
    requires BinnedOk(c, treebins, treemap, smallmap, rings, spot)
    requires forall a :: a in spot || a <= 0 ==> At(c', a) == At(c, a)
    ensures BinnedOk(c', treebins, treemap, smallmap, rings, spot)
  {
    hide Members, BinsOk, NodesOk, Ring, SizeAt;
    forall q | q in rings
      ensures Ring(c', rings[q])
    {
      FrameRing(c, c', rings, spot, q);
    }
    assert NodesOk(c', rings) by { FrameNodes(c, c', rings, spot); }
  }

  lemma FrameRing(c: Chunks, c': Chunks, rings: Rings, spot: Spots, q: Place)
    requires Members(rings, spot) && q in rings && Ring(c, rings[q])
    requires forall a :: a in spot || a <= 0 ==> At(c', a) == At(c, a)
    ensures Ring(c', rings[q])
  {
    forall k | 0 <= k < |rings[q]|
      ensures At(c', rings[q][k]) == At(c, rings[q][k])
    {
      NodeOwned(rings, spot, q, k);
    }
    RingFrame(c, c', rings[q]);
  }

  lemma FrameNodes(c: Chunks, c': Chunks, rings: Rings, spot: Spots)
    requires Members(rings, spot) && NodesOk(c, rings)
    requires forall a :: a in spot || a <= 0 ==> At(c', a) == At(c, a)
    ensures NodesOk(c', rings)
  {
    forall q | q in rings && !q.Small?
      ensures NodeOk(c', rings, q)
    {
      assert NodeOk(c, rings, q);
      HeadSpot(rings, spot, q);
    }
  }

  /** A prepared chunk of the size found at `q` can join the ring there. */
  lemma SameSize(c: Chunks, treebins: seq<int>, treemap: nat, smallmap: nat, rings: Rings, spot: Spots, q: Place,
      x: int)
    requires BinnedOk(c, treebins, treemap, smallmap, rings, spot) && q in rings && x > 0 && x !in spot
    requires SizeAt(q, At(c, x).size, At(c, x).index)
    requires !q.Small? ==>
      && At(c, HeadOf(rings, q)).size == At(c, x).size && At(c, x).left == 0 && At(c, x).right == 0
      && At(c, x).parent == 0
    ensures CanChain(c, rings, spot, q, x)
    ensures At(c, HeadOf(rings, q)).fd in spot
  {
    hide NodesOk, ChainedOk, BinsOk, Index, Lo, Hi;
    assert RingShape(q, rings[q]);
    RingEnds(c, rings[q], 0);
    NodeOwned(rings, spot, q, 1);
    if !q.Small? { HeadSpot(rings, spot, q); }
  }

  lemma RelinkedFrom(c: Chunks, c1: Chunks, c': Chunks, at: set<int>, x: int)
    requires Relinked(c1, c', at + {x})
    requires forall a :: a != x ==> At(c1, a) == At(c, a)
    requires At(c1, x) == At(c, x).(left := At(c1, x).left, right := At(c1, x).right, parent := At(c1, x).parent,
      index := At(c1, x).index)
    ensures Relinked(c, c', at + {x})
  {
  }

  lemma HeadUnlike(c: Chunks, treebins: seq<int>, treemap: nat, smallmap: nat, rings: Rings, spot: Spots, q: Place,
      x: int)
    requires BinnedOk(c, treebins, treemap, smallmap, rings, spot) && q in rings && !q.Small? && x !in spot
    ensures HeadOf(rings, q) != x
  {
    HeadSpot(rings, spot, q);
  }

  /** What the fields of the node at `q` say. */
  ghost predicate Fields(c: Chunks, rings: Rings, spot: Spots, q: Place) {
    var h := HeadOf(rings, q);
    && h in spot && spot[h] == q && h > 0 && 0 <= Log(q)
    && At(c, h).left == HeadOf(rings, Sub(q, false)) && At(c, h).right == HeadOf(rings, Sub(q, true))
    && (At(c, h).left != 0 <==> Sub(q, false) in rings) && (At(c, h).right != 0 <==> Sub(q, true) in rings)
    && (At(c, h).left != 0 || At(c, h).right != 0 ==> 0 < Log(q) && At(c, h).left != At(c, h).right)
  }

  lemma NodeFields(c: Chunks, treebins: seq<int>, treemap: nat, smallmap: nat, rings: Rings, spot: Spots, q: Place)
    requires BinnedOk(c, treebins, treemap, smallmap, rings, spot) && q in rings && !q.Small?
    ensures Fields(c, rings, spot, q)
  {
    hide RingsOk, ChainedOk, SizesOk, BinsOk;
    NodeAt(c, rings, q);
    HeadSpot(rings, spot, q);
    if Sub(q, false) in rings { HeadSpot(rings, spot, Sub(q, false)); }
    if Sub(q, true) in rings { HeadSpot(rings, spot, Sub(q, true)); }
  }

  lemma {:induction false} UnderChild(p: Place, q: Place, b: bool)
    requires Under(p, q)
    ensures Under(Sub(p, b), q) && Sub(p, b) != q
  {
    UnderDeeper(p, q);
  }

  function Depth(q: Place): nat { if q.Sub? then 1 + Depth(q.up) else 0 }

  lemma {:induction false} UnderDeeper(p: Place, q: Place)
    requires Under(p, q)
    ensures Depth(q) <= Depth(p)
  {
    if p != q { UnderDeeper(p.up, q); }
  }

  lemma {:induction false} BinRange(q: Place)
    requires ValidPlace(q)
    ensures 0 <= Bin(q) < NTREEBINS
  {
    if q.Sub? { BinRange(q.up); }
  }

  lemma NotAbove(q: Place)
    ensures q.Sub? ==> q.up != q && q.up != Sub(q, false) && q.up != Sub(q, true)
  {
    assert q.Sub? ==> Depth(q.up) < Depth(q);
  }

  // ----- what `unlink_large_chunk` finds

  /** Where a chunk is in its ring, and what its link fields say. */
  lemma RingNode(c: Chunks, treebins: seq<int>, treemap: nat, smallmap: nat, rings: Rings, spot: Spots,
      x: int) returns (p: int)
    requires BinnedOk(c, treebins, treemap, smallmap, rings, spot) && x in spot
    ensures spot[x] in rings && First(spot[x]) <= p < |rings[spot[x]]| - 1 && rings[spot[x]][p] == x
    ensures At(c, At(c, x).fd).bk == x && At(c, At(c, x).bk).fd == x
    ensures !spot[x].Small? ==> At(c, x).fd in spot && At(c, x).bk in spot
    ensures !spot[x].Small? ==> (At(c, x).bk == x <==> |rings[spot[x]]| == 2) && (At(c, x).parent != 0 <==> p == 0)
  {
    hide SizesOk, BinsOk;
    p := Locate(rings, spot, x);
    var q, f := spot[x], rings[spot[x]];
    RingEnds(c, f, p);
    RingEnds(c, f, if p + 1 < |f| - 1 then p + 1 else 0);
    RingEnds(c, f, if p > 0 then p - 1 else |f| - 2);
    NodeOwned(rings, spot, q, p + 1);
    NodeOwned(rings, spot, q, if p == 0 then |f| - 2 else p - 1);
    if !q.Small? { RingParent(c, rings, spot, x, p); }
  }

  lemma RingParent(c: Chunks, rings: Rings, spot: Spots, x: int, p: int)
    requires Members(rings, spot) && NodesOk(c, rings) && ChainedOk(c, rings, spot) && RingsOk(c, rings)
    requires x in spot && !spot[x].Small? && 0 <= p < |rings[spot[x]]| - 1 && rings[spot[x]][p] == x
    ensures At(c, x).parent != 0 <==> p == 0
  {
    var q := spot[x];
    HeadSpot(rings, spot, q);
    NodeAt(c, rings, q);
    if q.Sub? { HeadSpot(rings, spot, q.up); }
    assert Ring(c, rings[q]);
  }

  lemma UpBinned(c: Chunks, treebins: seq<int>, treemap: nat, smallmap: nat, rings: Rings, spot: Spots, q: Place)
    requires BinnedOk(c, treebins, treemap, smallmap, rings, spot) && q in rings && !q.Small?
    ensures ValidPlace(q) && (q.Sub? ==> UpOf(rings, q) in spot)
  {
    HeadSpot(rings, spot, q);
    NodeAt(c, rings, q);
    if q.Sub? { HeadSpot(rings, spot, q.up); }
  }

  lemma BinHeads(treebins: seq<int>, treemap: nat, smallmap: nat, rings: Rings)
    requires BinsOk(treebins, treemap, smallmap, rings)
    ensures |treebins| == NTREEBINS && (forall i :: 0 <= i < NTREEBINS ==> treebins[i] == HeadOf(rings, Apex(i)))
  {
    forall i | 0 <= i < NTREEBINS
      ensures treebins[i] == HeadOf(rings, Apex(i))
    {
      assert BinOk(treebins, treemap, smallmap, rings, i);
    }
  }

  /** The state in which the next chunk of the ring replaces the head of `q`. */
  lemma HandReady(c: Chunks, treebins: seq<int>, treemap: nat, smallmap: nat, rings: Rings, spot: Spots, q: Place)
    requires BinnedOk(c, treebins, treemap, smallmap, rings, spot) && q in rings && !q.Small? && |rings[q]| >= 3
    ensures |treebins| == NTREEBINS && (forall i :: 0 <= i < NTREEBINS ==> treebins[i] == HeadOf(rings, Apex(i)))
    ensures ValidPlace(q) && HeadsApart(rings)
    ensures var x := HeadOf(rings, q); var c1 := Unlinked(c, x); var r := At(c, x).bk;
      && x == rings[q][0] && NodesOk(c1, rings) && At(c1, x).index == Bin(q) && At(c, x).parent == UpOf(rings, q)
      && r != 0 && Spare(rings, r) && At(c1, r).left == 0 && At(c1, r).right == 0 && r == Beheaded(rings[q])[0]
  {
    hide BinsOk, Spare, HeadsApart, Ring, Members, SizesOk, ChainedOk, NodesOk, Unlinked, UpOf, ValidPlace;
    assert RingsOk(c, rings) && Ring(c, rings[q]);
    var f := rings[q];
    var c1 := Unlinked(c, f[0]);
    HeadSpot(rings, spot, q);
    HeadIndex(c, rings, spot, q);
    NodeAt(c, rings, q);
    BinHeads(treebins, treemap, smallmap, rings);
    MembersApart(rings, spot);
    HandedRings(c, rings, spot, q);
    LinksSame(c, c1, {f[1], f[|f| - 2]});
    LinksNodes(c, c1, rings);
    RingEnds(c, f, 0);
    ChainedSpare(c, rings, spot, q);
    LastChained(c, rings, spot, q);
    assert SameNode(c, c1, f[|f| - 2]);
  }

  lemma HeadIndex(c: Chunks, rings: Rings, spot: Spots, q: Place)
    requires Members(rings, spot) && SizesOk(c, spot) && q in rings && !q.Small?
    ensures At(c, HeadOf(rings, q)).index == Bin(q)
  {
    HeadSpot(rings, spot, q);
  }

  lemma LastChained(c: Chunks, rings: Rings, spot: Spots, q: Place)
    requires Members(rings, spot) && ChainedOk(c, rings, spot) && q in rings && !q.Small? && |rings[q]| >= 3 &&
      Ring(c, rings[q])
    ensures var r := rings[q][|rings[q]| - 2]; r > 0 && At(c, r).left == 0 && At(c, r).right == 0
  {
    NodeOwned(rings, spot, q, |rings[q]| - 2);
    assert rings[q][|rings[q]| - 2] in spot;
  }

  lemma SingleRing(c: Chunks, treebins: seq<int>, treemap: nat, smallmap: nat, rings: Rings, spot: Spots, q: Place,
      x: int)
    requires BinnedOk(c, treebins, treemap, smallmap, rings, spot) && q in rings && !q.Small? && |rings[q]| == 2 &&
      x in spot && spot[x] == q
    ensures rings[q] == [x, x] && x == HeadOf(rings, q)
    ensures |treebins| == NTREEBINS && (forall i :: 0 <= i < NTREEBINS ==> treebins[i] == HeadOf(rings, Apex(i)))
    ensures ValidPlace(q) && HeadsApart(rings) && NodesOk(c, rings) && At(c, x).parent == UpOf(rings, q) &&
      At(c, x).index == Bin(q)
    ensures q.Sub? ==> UpOf(rings, q) in spot
  {
    hide BinsOk, HeadsApart, ChainedOk, NodesOk, SizesOk, RingsOk, UpOf, ValidPlace;
    HeadSpot(rings, spot, q);
    assert RingShape(q, rings[q]);
    HeadIndex(c, rings, spot, q);
    NodeAt(c, rings, q);
    UpBinned(c, treebins, treemap, smallmap, rings, spot, q);
    BinHeads(treebins, treemap, smallmap, rings);
    MembersApart(rings, spot);
  }

  /** The state in which the leaf at `r` replaces the chunk at `q`. */
  lemma LiftReady(c: Chunks, c1: Chunks, treebins: seq<int>, treemap: nat, smallmap: nat, rings: Rings, spot: Spots,
      q: Place, r: Place, x: int)
    requires BinnedOk(c, treebins, treemap, smallmap, rings, spot) && q in rings && rings[q] == [x, x] &&
      At(c, x).index == Bin(q)
    requires IsLeaf(rings, r) && Under(r, q) && r != q && r.Sub? && !q.Small?
    requires c1 == c[UpOf(rings, r) := WithChild(At(c, UpOf(rings, r)), r.right, 0)]
    ensures Cleared(c, c1, rings, r) && CanLift(rings, q, r, x)
    ensures forall i :: 0 <= i < NTREEBINS ==> HeadOf(rings - {r}, Apex(i)) == HeadOf(rings, Apex(i))
    ensures NodesOk(c1, rings - {r}) && HeadsApart(rings - {r}) && q in rings - {r} && x == HeadOf(rings - {r}, q)
    ensures At(c1, x).parent == UpOf(rings - {r}, q) && At(c1, x).parent == At(c, x).parent && At(c1, x).index == Bin(q)
    ensures Spare(rings - {r}, HeadOf(rings, r)) && At(c1, HeadOf(rings, r)).left == 0 &&
      At(c1, HeadOf(rings, r)).right == 0
  {
    hide BinsOk, HeadsApart, ChainedOk, SizesOk, RingsOk, ValidPlace, NodesOk, Spare;
    ClearedNodes(c, c1, rings, spot, r);
    RemainingApart(rings, spot, r);
    SpareHead(rings, spot, r);
    HeadSpot(rings, spot, q);
    HeadSpot(rings, spot, r);
    NodeAt(c1, rings - {r}, q);
    NodeAt(c, rings, r);
    HeadSpot(rings, spot, r.up);
    NotAbove(r);
  }

  lemma LiftedKeys(spot: Spots, x: int, q: Place, r: Place)
    ensures LiftedSpot(spot, x, q, r).Keys == spot.Keys - {x}
  {
  }

  // ----- what the small-bin operations find

  lemma SmallMarked(c: Chunks, treebins: seq<int>, treemap: nat, smallmap: nat, rings: Rings, spot: Spots, i: int)
    requires BinnedOk(c, treebins, treemap, smallmap, rings, spot) && 0 <= i < NSMALLBINS
    ensures Bit(smallmap, i) <==> Small(i) in rings
    ensures Small(i) in rings ==>
      && HeadOf(rings, Small(i)) == SmallBin(i) && At(c, SmallBin(i)).fd in spot
      && spot[At(c, SmallBin(i)).fd] == Small(i)
  {
    hide RingsOk, ChainedOk, SizesOk, NodesOk, Bit;
    assert BinOk(treebins, treemap, smallmap, rings, i);
    if Small(i) in rings {
      assert RingShape(Small(i), rings[Small(i)]);
      assert RingsOk(c, rings) && Ring(c, rings[Small(i)]) by { RingAt(c, rings, Small(i)); }
      RingEnds(c, rings[Small(i)], 0);
    }
  }

  lemma RingAt(c: Chunks, rings: Rings, q: Place)
    requires RingsOk(c, rings) && q in rings
    ensures Ring(c, rings[q])
  {
  }

  lemma SmallNode(c: Chunks, treebins: seq<int>, treemap: nat, smallmap: nat, rings: Rings, spot: Spots, x: int, p: int)
    requires BinnedOk(c, treebins, treemap, smallmap, rings, spot) && x in spot && spot[x].Small?
    requires 1 <= p < |rings[spot[x]]| - 1 && rings[spot[x]][p] == x
    ensures At(c, x).size == 8 * spot[x].slot && 0 <= spot[x].slot < NSMALLBINS
    ensures At(c, x).fd != x && At(c, x).bk != x && (At(c, x).fd == At(c, x).bk <==> |rings[spot[x]]| == 3)
    ensures At(c, x).fd == SmallBin(spot[x].slot) || At(c, x).fd in spot
    ensures At(c, x).bk == SmallBin(spot[x].slot) || At(c, x).bk in spot
    ensures |rings[spot[x]]| == 3 ==> p == 1
  {
    hide ChainedOk, NodesOk, BinsOk;
    var q, f := spot[x], rings[spot[x]];
    assert SizeAt(q, At(c, x).size, At(c, x).index) && RingShape(q, f);
    RingAt(c, rings, q);
    RingEnds(c, f, p);
    NodeOwned(rings, spot, q, p + 1);
    NodeOwned(rings, spot, q, p - 1);
  }

  lemma RelinkedSame(c: Chunks, at: set<int>)
    ensures Relinked(c, c, at)
  {
  }

  lemma SmallOrLarge(c: Chunks, treebins: seq<int>, treemap: nat, smallmap: nat, rings: Rings, spot: Spots, x: int)
    requires BinnedOk(c, treebins, treemap, smallmap, rings, spot) && x in spot
    ensures spot[x].Small? <==> At(c, x).size < MIN_LARGE
    ensures 0 <= At(c, x).size < WORD
  {
    assert SizeAt(spot[x], At(c, x).size, At(c, x).index) && RingShape(spot[x], rings[spot[x]]);
  }

  lemma SlotSize(c: Chunks, treebins: seq<int>, treemap: nat, smallmap: nat, rings: Rings, spot: Spots, x: int)
    requires BinnedOk(c, treebins, treemap, smallmap, rings, spot) && x in spot && spot[x].Small?
    ensures At(c, x).size == 8 * spot[x].slot && x > 0
  {
    assert SizeAt(spot[x], At(c, x).size, At(c, x).index);
  }

  lemma SlotRange(c: Chunks, treebins: seq<int>, treemap: nat, smallmap: nat, rings: Rings, spot: Spots, i: nat)
    requires BinnedOk(c, treebins, treemap, smallmap, rings, spot)
    ensures smallmap < WORD && (Bit(smallmap, i) ==> i < NSMALLBINS)
  {
    hide Bit, Members, RingsOk, SizesOk, NodesOk, ChainedOk;
    Pow2Table();
    if i >= 32 { HighBits(smallmap, 32, i); }
  }

  /** No bin has a chunk that holds `nb` bytes. */
  ghost predicate NoneBinned(c: Chunks, spot: Spots, nb: int) {
    forall y :: y in spot ==> At(c, y).size < nb
  }

  lemma NothingBinned(c: Chunks, treebins: seq<int>, treemap: nat, smallmap: nat, rings: Rings, spot: Spots, nb: int)
    requires BinnedOk(c, treebins, treemap, smallmap, rings, spot) && 0 <= nb && nb % 8 == 0 && treemap == 0 &&
      Shr(smallmap, nb / 8) == 0
    ensures NoneBinned(c, spot, nb)
  {
    hide Bit, RingsOk, ChainedOk, Lo, Hi, Index;
    forall y | y in spot
      ensures At(c, y).size < nb
    {
      var q := spot[y];
      assert SizeAt(q, At(c, y).size, At(c, y).index) && RingShape(q, rings[q]);
      if q.Small? {
        assert BinOk(treebins, treemap, smallmap, rings, q.slot);
        if q.slot >= nb / 8 { NoHigherBits(smallmap, nb / 8, q.slot); }
      } else {
        UnderRoot(q);
        OccupiedAbove(c, rings, q, Apex(Bin(q)));
        BinRange(q);
        assert BinOk(treebins, treemap, smallmap, rings, Bin(q));
        NoBit(Bin(q));
      }
    }
  }
}
