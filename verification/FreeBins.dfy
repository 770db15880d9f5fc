/** The bins of dlmalloc: which free chunk is linked where.

    `rings` gives the ring at every occupied place, and `spot` the place of every binned chunk. */
module FreeBins {
  import opened Bits
  import opened TreeIndex
  import opened Places
  import opened Chunks

  type Rings = map<Place, seq<int>>
  type Spots = map<int, Place>

  const NSMALLBINS: int := 32

  function HeadOf(rings: Rings, q: Place): int { if q in rings && |rings[q]| > 0 then rings[q][0] else 0 }

  /** What the `parent` field of the chunk at `q` refers to. */
  function UpOf(rings: Rings, q: Place): int {
    match q
    case Small(_) => 0
    case Apex(i) => TreeBin(i)
    case Sub(u, _) => HeadOf(rings, u)
  }

  /** A small bin's ring starts at the list head in the allocator's state. */
  function First(q: Place): int { if q.Small? then 1 else 0 }

  ghost predicate RingShape(q: Place, f: seq<int>) {
    && |f| >= 2 && f[0] == f[|f| - 1]
    && (if q.Small? then |f| >= 3 && f[0] == SmallBin(q.slot) && 0 <= q.slot < NSMALLBINS else ValidPlace(q))
  }

  /** Every binned chunk is in the ring of its place and in no other. */
  ghost predicate Members(rings: Rings, spot: Spots) {
    && (forall q :: q in rings ==> RingShape(q, rings[q]))
    && (forall q, k :: q in rings && First(q) <= k < |rings[q]| - 1 ==> rings[q][k] in spot && spot[rings[q][k]] == q)
    && (forall a :: a in spot ==> a > 0 && spot[a] in rings && a in rings[spot[a]])
  }

  ghost predicate RingsOk(c: Chunks, rings: Rings) {
    forall q :: q in rings ==> Ring(c, rings[q])
  }

  ghost predicate SizeAt(q: Place, size: int, index: int) {
    if q.Small? then size == 8 * q.slot
    else MIN_LARGE <= size < WORD && Lo(q) <= size < Hi(q) && index == Bin(q) == Index(size)
  }

  /** Places are filled by size: one place for each size that occurs. */
  ghost predicate SizesOk(c: Chunks, spot: Spots) {
    && (forall a :: a in spot ==> SizeAt(spot[a], At(c, a).size, At(c, a).index))
    && (forall a, b :: a in spot && b in spot && At(c, a).size == At(c, b).size ==> spot[a] == spot[b])
    && (forall a, b :: a in spot && b in spot && spot[a] == spot[b] ==> At(c, a).size == At(c, b).size)
  }

  /** The head of a ring is a trie node, linked to the heads above and below it. */
  ghost predicate NodeOk(c: Chunks, rings: Rings, q: Place) {
    var h := At(c, HeadOf(rings, q));
    && h.left == HeadOf(rings, Sub(q, false)) && h.right == HeadOf(rings, Sub(q, true))
    && h.parent == UpOf(rings, q) && (q.Sub? ==> q.up in rings)
  }

  ghost predicate NodesOk(c: Chunks, rings: Rings) {
    forall q {:trigger NodeOk(c, rings, q)} :: q in rings && !q.Small? ==> NodeOk(c, rings, q)
  }

  /** The others of a ring have no trie links. */
  ghost predicate ChainedOk(c: Chunks, rings: Rings, spot: Spots) {
    forall a :: a in spot && !spot[a].Small? && a != HeadOf(rings, spot[a]) ==>
      At(c, a).left == 0 && At(c, a).right == 0 && At(c, a).parent == 0
  }

  ghost predicate BinOk(treebins: seq<int>, treemap: nat, smallmap: nat, rings: Rings, i: int)
    requires |treebins| == NTREEBINS && 0 <= i < NTREEBINS
  {
    && treebins[i] == HeadOf(rings, Apex(i))
    && (Bit(treemap, i) <==> Apex(i) in rings)
    && (Bit(smallmap, i) <==> Small(i) in rings)
  }

  /** The bin maps mark exactly the non-empty bins. */
  ghost predicate BinsOk(treebins: seq<int>, treemap: nat, smallmap: nat, rings: Rings) {
    && |treebins| == NTREEBINS && treemap < WORD && smallmap < WORD
    && (forall i :: 0 <= i < NTREEBINS ==> BinOk(treebins, treemap, smallmap, rings, i))
  }

  ghost predicate BinnedOk(c: Chunks, treebins: seq<int>, treemap: nat, smallmap: nat, rings: Rings, spot: Spots) {
    && Members(rings, spot)
    && RingsOk(c, rings)
    && SizesOk(c, spot)
    && NodesOk(c, rings)
    && ChainedOk(c, rings, spot)
    && BinsOk(treebins, treemap, smallmap, rings)
  }

  // ----- the six ways in which rings change

  function Placed(rings: Rings, q: Place, x: int): Rings {
    rings[q := if q.Small? then [SmallBin(q.slot), x, SmallBin(q.slot)] else [x, x]]
  }

  function Chained(rings: Rings, q: Place, x: int): Rings
    requires q in rings && |rings[q]| >= 2
  {
    rings[q := With(rings[q], x)]
  }

  function Unchained(rings: Rings, q: Place, p: int): Rings
    requires q in rings && 0 <= p < |rings[q]|
  {
    rings[q := Without(rings[q], p)]
  }

  function Handed(rings: Rings, q: Place): Rings
    requires q in rings && |rings[q]| >= 3
  {
    rings[q := Beheaded(rings[q])]
  }

  function Lifted(rings: Rings, q: Place, r: Place): Rings
    requires r in rings
  {
    (rings - {r})[q := rings[r]]
  }

  function LiftedSpot(spot: Spots, x: int, q: Place, r: Place): Spots {
    map a | a in spot && a != x :: if spot[a] == r then q else spot[a]
  }

  lemma {:induction false} Locate(rings: Rings, spot: Spots, a: int) returns (p: int)
    requires Members(rings, spot) && a in spot
    ensures First(spot[a]) <= p < |rings[spot[a]]| - 1 && rings[spot[a]][p] == a
  {
    var f := rings[spot[a]];
    p :| 0 <= p < |f| && f[p] == a;
    assert RingShape(spot[a], f);
    if p == |f| - 1 { p := 0; }
  }

  lemma PlacedMembers(rings: Rings, spot: Spots, q: Place, x: int)
    requires Members(rings, spot) && q !in rings && x !in spot && x > 0
    requires if q.Small? then 0 <= q.slot < NSMALLBINS else ValidPlace(q)
    ensures Members(Placed(rings, q, x), spot[x := q])
  {
  }

  lemma ChainedMembers(rings: Rings, spot: Spots, q: Place, x: int)
    requires Members(rings, spot) && q in rings && |rings[q]| >= 2 && x !in spot && x > 0
    ensures Members(Chained(rings, q, x), spot[x := q])
  {
  }

  lemma UnchainedMembers(c: Chunks, rings: Rings, spot: Spots, q: Place, p: int)
    requires Members(rings, spot) && q in rings && 0 < p < |rings[q]| - 1 && |rings[q]| >= First(q) + 3 &&
      Ring(c, rings[q])
    ensures Members(Unchained(rings, q, p), spot - {rings[q][p]})
  {
  }

  lemma HandedMembers(c: Chunks, rings: Rings, spot: Spots, q: Place)
    requires Members(rings, spot) && q in rings && !q.Small? && |rings[q]| >= 3 && Ring(c, rings[q])
    ensures Members(Handed(rings, q), spot - {rings[q][0]})
  {
  }

  lemma DroppedMembers(rings: Rings, spot: Spots, q: Place, x: int)
    requires Members(rings, spot) && q in rings && |rings[q]| == First(q) + 2 && rings[q][First(q)] == x
    ensures Members(rings - {q}, spot - {x})
  {
  }

  lemma LiftedMembers(rings: Rings, spot: Spots, q: Place, r: Place, x: int)
    requires Members(rings, spot) && q in rings && r in rings && q != r && !q.Small? && !r.Small? && rings[q] == [x, x]
    ensures Members(Lifted(rings, q, r), LiftedSpot(spot, x, q, r))
  {
  }

  // ----- rings elsewhere

  /** The place that a node's links belong to. */
  ghost predicate Owned(spot: Spots, n: int, q: Place) {
    if n > 0 then n in spot && spot[n] == q else q == Small(-1 - n)
  }

  lemma NodeOwned(rings: Rings, spot: Spots, q: Place, k: int)
    requires Members(rings, spot) && q in rings && 0 <= k < |rings[q]|
    ensures Owned(spot, rings[q][k], q)
  {
    assert RingShape(q, rings[q]);
    if k == |rings[q]| - 1 { assert rings[q][k] == rings[q][0]; }
  }

  /** Changing links of nodes of `q`, or of a chunk in no ring, leaves the other rings alone. */
  lemma OtherRing(c: Chunks, c': Chunks, rings: Rings, spot: Spots, q: Place, at: set<int>, p: Place)
    requires Members(rings, spot) && p in rings && p != q && Ring(c, rings[p])
    requires LinksOnly(c, c', at)
    requires forall n :: n in at ==> Owned(spot, n, q) || (n > 0 && n !in spot)
    ensures Ring(c', rings[p])
  {
    forall k | 0 <= k < |rings[p]|
      ensures At(c', rings[p][k]) == At(c, rings[p][k])
    {
      NodeOwned(rings, spot, p, k);
    }
    RingFrame(c, c', rings[p]);
  }

  lemma ChainedRings(c: Chunks, rings: Rings, spot: Spots, q: Place, x: int)
    requires Members(rings, spot) && RingsOk(c, rings) && q in rings && |rings[q]| >= 2 && x !in spot && x > 0
    ensures RingsOk(LinkAfter(c, rings[q][0], x), Chained(rings, q, x))
    ensures LinksOnly(c, LinkAfter(c, rings[q][0], x), {rings[q][0], rings[q][1], x})
  {
    hide Members, Ring;
    var f := rings[q];
    NewNode(rings, spot, q, x);
    RingAdd(c, f, x);
    NodeOwned(rings, spot, q, 0);
    NodeOwned(rings, spot, q, 1);
    forall p | p in rings && p != q
      ensures Ring(LinkAfter(c, f[0], x), rings[p])
    {
      OtherRing(c, LinkAfter(c, f[0], x), rings, spot, q, {f[0], f[1], x}, p);
    }
  }

  lemma NewNode(rings: Rings, spot: Spots, q: Place, x: int)
    requires Members(rings, spot) && q in rings && x !in spot && x > 0
    ensures x !in rings[q]
  {
    if x in rings[q] {
      var k :| 0 <= k < |rings[q]| && rings[q][k] == x;
      NodeOwned(rings, spot, q, k);
      assert false;
    }
  }

  lemma UnchainedRings(c: Chunks, rings: Rings, spot: Spots, q: Place, p: int)
    requires Members(rings, spot) && RingsOk(c, rings) && q in rings && 0 < p < |rings[q]| - 1
    ensures RingsOk(Unlinked(c, rings[q][p]), Unchained(rings, q, p))
    ensures LinksOnly(c, Unlinked(c, rings[q][p]), {rings[q][p - 1], rings[q][p + 1]})
  {
    hide Members, Ring;
    var f := rings[q];
    RingDrop(c, f, p);
    NodeOwned(rings, spot, q, p - 1);
    NodeOwned(rings, spot, q, p + 1);
    forall r | r in rings && r != q
      ensures Ring(Unlinked(c, f[p]), rings[r])
    {
      OtherRing(c, Unlinked(c, f[p]), rings, spot, q, {f[p - 1], f[p + 1]}, r);
    }
  }

  lemma HandedRings(c: Chunks, rings: Rings, spot: Spots, q: Place)
    requires Members(rings, spot) && RingsOk(c, rings) && q in rings && |rings[q]| >= 3
    ensures RingsOk(Unlinked(c, rings[q][0]), Handed(rings, q))
    ensures LinksOnly(c, Unlinked(c, rings[q][0]), {rings[q][1], rings[q][|rings[q]| - 2]})
  {
    hide Members, Ring;
    var f := rings[q];
    RingBehead(c, f);
    NodeOwned(rings, spot, q, 1);
    NodeOwned(rings, spot, q, |f| - 2);
    forall r | r in rings && r != q
      ensures Ring(Unlinked(c, f[0]), rings[r])
    {
      OtherRing(c, Unlinked(c, f[0]), rings, spot, q, {f[1], f[|f| - 2]}, r);
    }
  }

  /** A chunk alone at its place. */
  function Alone(c: Chunks, q: Place, x: int): Chunks {
    if q.Small? then
      var b := SmallBin(q.slot);
      var c1 := c[b := At(c, b).(fd := x, bk := x)];
      c1[x := At(c1, x).(fd := b, bk := b)]
    else c[x := At(c, x).(fd := x, bk := x)]
  }

  lemma PlacedRings(c: Chunks, rings: Rings, spot: Spots, q: Place, x: int)
    requires Members(rings, spot) && RingsOk(c, rings) && q !in rings && x !in spot && x > 0
    requires q.Small? ==> 0 <= q.slot < NSMALLBINS
    ensures RingsOk(Alone(c, q, x), Placed(rings, q, x))
    ensures LinksOnly(c, Alone(c, q, x), if q.Small? then {x, SmallBin(q.slot)} else {x})
  {
    hide Members;
    var c' := Alone(c, q, x);
    forall r | r in rings
      ensures Ring(c', rings[r])
    {
      OtherRing(c, c', rings, spot, q, if q.Small? then {x, SmallBin(q.slot)} else {x}, r);
    }
  }

  lemma RingsFrame(c: Chunks, c': Chunks, rings: Rings)
    requires RingsOk(c, rings)
    requires forall a :: At(c', a).fd == At(c, a).fd && At(c', a).bk == At(c, a).bk
    ensures RingsOk(c', rings)
  {
    forall q | q in rings
      ensures Ring(c', rings[q])
    {
      RingFrame(c, c', rings[q]);
    }
  }

  // ----- the tries

  /** Trie fields other than the ones named do not change. */
  ghost predicate SameNode(c: Chunks, c': Chunks, a: int) {
    At(c', a).left == At(c, a).left && At(c', a).right == At(c, a).right && At(c', a).parent == At(c, a).parent
  }

  /** The field above `q` that refers to the chunk at `q` now refers to `x`. */
  ghost predicate SlotSet(c: Chunks, c': Chunks, rings: Rings, q: Place, x: int) {
    q.Sub? ==>
      var h := HeadOf(rings, q.up);
      && At(c', h).parent == At(c, h).parent
      && At(c', h).left == (if q.right then At(c, h).left else x)
      && At(c', h).right == (if q.right then x else At(c, h).right)
  }

  /** Other heads keep their trie fields. */
  ghost predicate OthersSame(c: Chunks, c': Chunks, rings: Rings, but: set<Place>) {
    forall p :: p in rings && !p.Small? && p !in but ==> SameNode(c, c', HeadOf(rings, p))
  }

  ghost function Above(q: Place): set<Place> { if q.Sub? then {q.up} else {} }

  lemma EmptyBelow(c: Chunks, rings: Rings, q: Place, b: bool)
    requires NodesOk(c, rings) && q !in rings
    ensures Sub(q, b) !in rings
  {
    assert Sub(q, b) in rings ==> NodeOk(c, rings, Sub(q, b));
  }

  lemma PlacedNodes(c: Chunks, c': Chunks, rings: Rings, q: Place, x: int)
    requires NodesOk(c, rings) && q !in rings && !q.Small? && (q.Sub? ==> q.up in rings && !q.up.Small?)
    requires At(c', x).left == 0 && At(c', x).right == 0 && At(c', x).parent == UpOf(rings, q)
    requires SlotSet(c, c', rings, q, x) && OthersSame(c, c', rings, Above(q))
    ensures NodesOk(c', Placed(rings, q, x))
  {
    var rings' := Placed(rings, q, x);
    forall p | p in rings' && !p.Small?
      ensures NodeOk(c', rings', p)
    {
      EmptyBelow(c, rings, q, false);
      EmptyBelow(c, rings, q, true);
      if p != q { assert NodeOk(c, rings, p); }
    }
  }

  lemma DroppedNodes(c: Chunks, c': Chunks, rings: Rings, q: Place)
    requires NodesOk(c, rings) && q in rings && !q.Small?
    requires Sub(q, false) !in rings && Sub(q, true) !in rings
    requires SlotSet(c, c', rings, q, 0) && OthersSame(c, c', rings, Above(q))
    ensures NodesOk(c', rings - {q})
  {
    var rings' := rings - {q};
    assert NodeOk(c, rings, q);
    forall p | p in rings' && !p.Small?
      ensures NodeOk(c', rings', p)
    {
      assert NodeOk(c, rings, p);
      assert p.Sub? ==> p.up != q;
    }
  }

  lemma ReplacedNodes(c: Chunks, c': Chunks, rings: Rings, q: Place, g: seq<int>)
    requires NodesOk(c, rings) && q in rings && !q.Small? && |g| > 0
    requires At(c', g[0]).left == At(c, HeadOf(rings, q)).left && At(c', g[0]).right == At(c, HeadOf(rings, q)).right
    requires At(c', g[0]).parent == At(c, HeadOf(rings, q)).parent
    requires SlotSet(c, c', rings, q, g[0])
    requires Reparented(c, c', rings, Sub(q, false), g[0]) && Reparented(c, c', rings, Sub(q, true), g[0])
    requires OthersSame(c, c', rings, Above(q) + {q, Sub(q, false), Sub(q, true)})
    ensures NodesOk(c', rings[q := g])
  {
    var rings' := rings[q := g];
    assert NodeOk(c, rings, q);
    forall p | p in rings' && !p.Small?
      ensures NodeOk(c', rings', p)
    {
      assert NodeOk(c, rings, p);
    }
  }

  ghost predicate Reparented(c: Chunks, c': Chunks, rings: Rings, p: Place, x: int) {
    p in rings ==>
      var h := HeadOf(rings, p);
      At(c', h).left == At(c, h).left && At(c', h).right == At(c, h).right && At(c', h).parent == x
  }

  lemma EmptyBins(c: Chunks, treebins: seq<int>)
    requires |treebins| == NTREEBINS && (forall i :: 0 <= i < NTREEBINS ==> treebins[i] == 0)
    ensures BinnedOk(c, treebins, 0, 0, map[], map[])
  {
    forall i | 0 <= i < NTREEBINS
      ensures BinOk(treebins, 0, 0, map[], i)
    {
      ShrZero(i);
    }
  }
}
