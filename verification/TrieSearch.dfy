/** Walking down a trie: towards one size, and towards the smallest. */
module TrieSearch {
  import opened Bits
  import opened TreeIndex
  import opened Places
  import opened Chunks
  import opened FreeBins

  /** A place that is occupied has every place above it occupied. */
  lemma {:induction false} OccupiedAbove(c: Chunks, rings: Rings, p: Place, q: Place)
    requires NodesOk(c, rings) && p in rings && !p.Small? && Under(p, q)
    ensures q in rings
  {
    if p != q {
      assert NodeOk(c, rings, p);
      if p.up.Small? { assert p.up == q; } else { OccupiedAbove(c, rings, p.up, q); }
    }
  }

  /** Chunks of size `s` are found below `q` only. */
  ghost predicate OnPath(c: Chunks, spot: Spots, q: Place, s: int) {
    forall b :: b in spot && At(c, b).size == s ==> Under(spot[b], q)
  }

  lemma PathStart(c: Chunks, rings: Rings, spot: Spots, s: int)
    requires Members(rings, spot) && SizesOk(c, spot) && MIN_LARGE <= s < WORD
    ensures OnPath(c, spot, Apex(Index(s)), s)
  {
    forall b | b in spot && At(c, b).size == s
      ensures Under(spot[b], Apex(Index(s)))
    {
      assert RingShape(spot[b], rings[spot[b]]);
      UnderRoot(spot[b]);
    }
  }

  lemma HeadSpot(rings: Rings, spot: Spots, q: Place)
    requires Members(rings, spot) && q in rings && !q.Small?
    ensures HeadOf(rings, q) in spot && spot[HeadOf(rings, q)] == q && HeadOf(rings, q) > 0 && ValidPlace(q)
  {
    assert RingShape(q, rings[q]);
  }

  lemma PathStep(c: Chunks, rings: Rings, spot: Spots, q: Place, s: int)
    requires Members(rings, spot) && SizesOk(c, spot) && OnPath(c, spot, q, s)
    requires q in rings && !q.Small? && Lo(q) <= s < Hi(q) && At(c, HeadOf(rings, q)).size != s
    ensures ValidPlace(q) && 0 < Log(q)
    ensures OnPath(c, spot, Sub(q, s >= Lo(Sub(q, true))), s)
  {
    HeadSpot(rings, spot, q);
    var h := HeadOf(rings, q);
    assert SizeAt(spot[h], At(c, h).size, At(c, h).index);
    assert Pow2(0) == 1;
    SubForm(q);
    forall b | b in spot && At(c, b).size == s
      ensures Under(spot[b], Sub(q, s >= Lo(Sub(q, true))))
    {
      BelowChild(c, rings, spot, q, b);
    }
  }

  /** A chunk below `q` and not at `q` is below the child that its size selects. */
  lemma BelowChild(c: Chunks, rings: Rings, spot: Spots, q: Place, b: int)
    requires Members(rings, spot) && SizesOk(c, spot) && b in spot && !spot[b].Small? && Under(spot[b], q) &&
      spot[b] != q
    requires ValidPlace(q) && 0 < Log(q)
    ensures Under(spot[b], Sub(q, At(c, b).size >= Lo(Sub(q, true))))
    ensures Lo(Sub(q, At(c, b).size >= Lo(Sub(q, true)))) <= At(c,
      b).size < Hi(Sub(q, At(c, b).size >= Lo(Sub(q, true))))
  {
    SubForm(q);
    assert SizeAt(spot[b], At(c, b).size, At(c, b).index);
    assert RingShape(spot[b], rings[spot[b]]);
    UnderSplit(spot[b], q);
    if Under(spot[b], Sub(q, false)) { UnderRange(spot[b], Sub(q, false)); } else { UnderRange(spot[b], Sub(q, true)); }
  }

  lemma PathEnd(c: Chunks, rings: Rings, spot: Spots, q: Place, s: int, b: int)
    requires Members(rings, spot) && SizesOk(c, spot) && NodesOk(c, rings) && OnPath(c, spot, q, s) && q !in rings &&
      !q.Small?
    requires MIN_LARGE <= s && b in spot
    ensures At(c, b).size != s
  {
    if At(c, b).size == s {
      assert SizeAt(spot[b], s, At(c, b).index);
      OccupiedAbove(c, rings, spot[b], q);
    }
  }

  // ----- the walk to the place of one size

  /** The walk has reached the chunk `t` at `q`, and `k` holds the size bits still to be followed. */
  ghost predicate Descent(c: Chunks, rings: Rings, spot: Spots, q: Place, s: int, t: int, k: int) {
    && 0 <= s < WORD && q in rings && ValidPlace(q) && t == HeadOf(rings, q) && t in spot && spot[t] == q &&
      Bin(q) == Index(s)
    && Lo(q) <= s < Hi(q) && k == Key(q, s) && OnPath(c, spot, q, s)
  }

  /** `q` is the empty place for a chunk of size `s`. */
  ghost predicate CanHangAt(c: Chunks, rings: Rings, spot: Spots, q: Place, s: int) {
    && q !in rings && ValidPlace(q) && SizeAt(q, s, Bin(q))
    && (forall a :: a in spot ==> At(c, a).size != s)
  }

  lemma DescentStart(c: Chunks, treebins: seq<int>, treemap: nat, smallmap: nat, rings: Rings, spot: Spots, s: int)
    requires BinnedOk(c, treebins, treemap, smallmap, rings, spot) && MIN_LARGE <= s < WORD
    ensures 0 <= Index(s) < NTREEBINS && |treebins| == NTREEBINS
    ensures Bit(treemap, Index(s)) ==> Descent(c, rings, spot, Apex(Index(s)), s, treebins[Index(s)],
      Shl(s, LeftShift(Index(s))))
  {
    hide Members, RingsOk, SizesOk, NodesOk, ChainedOk, Index, Bit, OnPath, Key, Shl, LeftShift;
    IndexRange(s);
    KeyRoot(s);
    PathStart(c, rings, spot, s);
    var q := Apex(Index(s));
    assert BinOk(treebins, treemap, smallmap, rings, Index(s));
    if q in rings { HeadSpot(rings, spot, q); }
  }

  lemma DescentStep(c: Chunks, treebins: seq<int>, treemap: nat, smallmap: nat, rings: Rings, spot: Spots, q: Place,
      s: int, t: int, k: int)
    requires BinnedOk(c, treebins, treemap, smallmap, rings, spot) && MIN_LARGE <= s < WORD
    requires Descent(c, rings, spot, q, s, t, k) && At(c, t).size != s
    ensures 0 < Log(q) && 0 <= k < WORD && Log(Sub(q, TopBit(k))) == Log(q) - 1
    ensures (if TopBit(k) then At(c, t).right else At(c, t).left) == HeadOf(rings, Sub(q, TopBit(k)))
    ensures Sub(q, TopBit(k)) in rings ==> HeadOf(rings, Sub(q, TopBit(k))) != 0
    ensures Sub(q, TopBit(k)) in rings ==> Descent(c, rings, spot, Sub(q, TopBit(k)), s,
      HeadOf(rings, Sub(q, TopBit(k))), Shl(k, 1))
    ensures Sub(q, TopBit(k)) !in rings ==>
      && HeadOf(rings, Sub(q, TopBit(k))) == 0
      && CanHangAt(c, rings, spot, Sub(q, TopBit(k)), s)
  {
    hide Members, RingsOk, SizesOk, NodesOk, ChainedOk, BinsOk, Index, OnPath, Key, Shl, TopBit, ValidPlace, Lo, Hi;
    PathStep(c, rings, spot, q, s);
    KeyStep(q, s);
    var p := Sub(q, TopBit(k));
    assert NodeOk(c, rings, q) by { NodeAt(c, rings, q); }
    if p in rings {
      HeadSpot(rings, spot, p);
    } else {
      forall a | a in spot
        ensures At(c, a).size != s
      {
        PathEnd(c, rings, spot, p, s, a);
      }
    }
  }

  lemma NodeAt(c: Chunks, rings: Rings, q: Place)
    requires NodesOk(c, rings) && q in rings && !q.Small?
    ensures NodeOk(c, rings, q)
  {
  }

  lemma EmptyBin(c: Chunks, treebins: seq<int>, treemap: nat, smallmap: nat, rings: Rings, spot: Spots, s: int)
    requires BinnedOk(c, treebins, treemap, smallmap, rings, spot) && MIN_LARGE <= s < WORD
    ensures 0 <= Index(s) < NTREEBINS && |treebins| == NTREEBINS
    ensures !Bit(treemap, Index(s)) ==> CanHangAt(c, rings, spot, Apex(Index(s)), s)
  {
    hide Members, RingsOk, SizesOk, NodesOk, ChainedOk, Index, Bit, OnPath, Key, Shl, LeftShift;
    IndexRange(s);
    KeyRoot(s);
    PathStart(c, rings, spot, s);
    var q := Apex(Index(s));
    assert BinOk(treebins, treemap, smallmap, rings, Index(s));
    if q !in rings {
      forall a | a in spot
        ensures At(c, a).size != s
      {
        PathEnd(c, rings, spot, q, s, a);
      }
    }
  }
}
