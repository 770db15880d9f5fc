/** The searches of `tmalloc_large` and `tmalloc_small` for the smallest chunk that fits. */
module BestFit {
  import opened Bits
  import Buckets
  import opened TreeIndex
  import opened BinMaps
  import opened Places
  import opened Chunks
  import opened FreeBins
  import opened TrieSearch
  import opened BinSteps

  /** `x - y` on 32 bits. */
  function Minus(x: int, y: int): (r: int)
    ensures 0 <= r < WORD
  {
    (x - y) % WORD
  }

  ghost predicate InTrie(spot: Spots, a: int) { a in spot && !spot[a].Small? }

  /** `v` is a smallest chunk in the tree bins that holds `nb` bytes. */
  ghost predicate Best(c: Chunks, spot: Spots, nb: int, v: int) {
    && InTrie(spot, v) && At(c, v).size >= nb
    && (forall y :: InTrie(spot, y) && At(c, y).size >= nb ==> At(c, v).size <= At(c, y).size)
  }

  ghost predicate NoneFits(c: Chunks, spot: Spots, nb: int) {
    forall y :: InTrie(spot, y) ==> At(c, y).size < nb
  }

  /** The best candidate so far and what it leaves over; at first none, with the remainder `-nb`. */
  ghost predicate Candidate(c: Chunks, spot: Spots, nb: int, v: int, rsize: int) {
    if v == 0 then rsize == WORD - nb
    else InTrie(spot, v) && nb <= At(c, v).size < WORD && rsize == At(c, v).size - nb
  }

  /** Unsigned wrap-around makes a remainder smaller exactly for chunks that fit, and fit better. */
  lemma RemainderLess(size: int, nb: int, rsize: int)
    requires 0 <= size < WORD && 0 < nb < WORD && 0 <= rsize <= WORD - nb
    ensures Minus(size, nb) < rsize <==> size >= nb && size - nb < rsize
    ensures size >= nb ==> Minus(size, nb) == size - nb
  {
  }

  /** Every chunk that would fit better is below `q`, or larger than everything below `q`. */
  ghost predicate Covered(c: Chunks, spot: Spots, nb: int, rsize: int, q: Place) {
    forall y :: InTrie(spot, y) && At(c, y).size >= nb ==>
      rsize <= At(c, y).size - nb || Under(spot[y], q) || At(c, y).size >= Hi(q)
  }

  ghost predicate Settled(c: Chunks, spot: Spots, nb: int, rsize: int) {
    forall y :: InTrie(spot, y) && At(c, y).size >= nb ==> rsize <= At(c, y).size - nb
  }

  ghost predicate AllFit(c: Chunks, spot: Spots, nb: int, q: Place) {
    forall y :: InTrie(spot, y) && Under(spot[y], q) ==> At(c, y).size >= nb
  }

  // ----- the smallest of a subtree

  lemma BelowOccupied(c: Chunks, rings: Rings, spot: Spots, y: int, q: Place)
    requires Members(rings, spot) && NodesOk(c, rings) && InTrie(spot, y) && Under(spot[y], q)
    ensures q in rings
  {
    OccupiedAbove(c, rings, spot[y], q);
  }

  /** A chunk below `q` is at `q`, below the left child, or larger than everything there. */
  lemma BelowLeft(c: Chunks, rings: Rings, spot: Spots, q: Place, y: int)
    requires Members(rings, spot) && SizesOk(c, spot) && NodesOk(c, rings) && ValidPlace(q)
    requires InTrie(spot, y) && Under(spot[y], q) && spot[y] != q
    ensures 0 < Log(q)
    ensures Sub(q, false) in rings ==> Under(spot[y], Sub(q, false)) || At(c, y).size >= Hi(Sub(q, false))
    ensures Sub(q, false) !in rings ==> Under(spot[y], Sub(q, true)) && Sub(q, true) in rings
  {
    assert RingShape(spot[y], rings[spot[y]]);
    Deeper(spot[y], q);
    BelowChild(c, rings, spot, q, y);
    SubForm(q);
    var b := At(c, y).size >= Lo(Sub(q, true));
    BelowOccupied(c, rings, spot, y, Sub(q, b));
  }

  lemma {:induction false} Deeper(p: Place, q: Place)
    requires ValidPlace(p) && Under(p, q) && p != q
    ensures 0 < Log(q)
  {
    if p.up != q { Deeper(p.up, q); }
  }

  /** The place that `leftmost_child` leads to. */
  function LeftmostChild(rings: Rings, q: Place): Place {
    if Sub(q, false) in rings then Sub(q, false) else Sub(q, true)
  }

  lemma LeftStep(c: Chunks, treebins: seq<int>, treemap: nat, smallmap: nat, rings: Rings, spot: Spots, nb: int,
      rsize: int, q: Place)
    requires BinnedOk(c, treebins, treemap, smallmap, rings, spot) && 0 <= rsize && q in rings && !q.Small?
    requires Covered(c, spot, nb, rsize, q) && (rsize == 0 || AllFit(c, spot, nb, q))
    requires rsize == 0 || rsize <= At(c, HeadOf(rings, q)).size - nb
    ensures Log(LeftmostChild(rings, q)) == Log(q) - 1
    ensures LeftmostChild(rings, q) in rings ==> Covered(c, spot, nb, rsize, LeftmostChild(rings, q))
    ensures LeftmostChild(rings, q) !in rings ==> Settled(c, spot, nb, rsize)
    ensures rsize == 0 || AllFit(c, spot, nb, LeftmostChild(rings, q))
  {
    hide RingsOk, ChainedOk, BinsOk, Lo, Hi, SizeAt, Under;
    var p := LeftmostChild(rings, q);
    forall y | InTrie(spot, y) && At(c, y).size >= nb
      ensures rsize <= At(c, y).size - nb || (p in rings && (Under(spot[y], p) || At(c, y).size >= Hi(p)))
    {
      LeftOne(c, rings, spot, nb, rsize, q, y);
    }
    FitBelow(c, spot, nb, q, p);
  }

  lemma FitBelow(c: Chunks, spot: Spots, nb: int, q: Place, p: Place)
    requires p.Sub? && p.up == q
    ensures AllFit(c, spot, nb, q) ==> AllFit(c, spot, nb, p)
  {
    forall y | InTrie(spot, y) && Under(spot[y], p)
      ensures Under(spot[y], q)
    {
      UnderTrans(spot[y], p, q);
    }
  }

  lemma LeftOne(c: Chunks, rings: Rings, spot: Spots, nb: int, rsize: int, q: Place, y: int)
    requires Members(rings, spot) && SizesOk(c, spot) && NodesOk(c, rings) && 0 <= rsize && q in rings && !q.Small?
    requires InTrie(spot, y) && At(c, y).size >= nb
    requires rsize <= At(c, y).size - nb || Under(spot[y], q) || At(c, y).size >= Hi(q)
    requires rsize == 0 || rsize <= At(c, HeadOf(rings, q)).size - nb
    ensures var p := LeftmostChild(rings, q);
      rsize <= At(c, y).size - nb || (p in rings && (Under(spot[y], p) || At(c, y).size >= Hi(p)))
  {
    HeadSpot(rings, spot, q);
    var h := HeadOf(rings, q);
    assert SizeAt(spot[h], At(c, h).size, At(c, h).index);
    if rsize > At(c, y).size - nb && spot[y] != q && At(c, y).size < Hi(q) {
      BelowLeft(c, rings, spot, q, y);
    }
  }

  // ----- the search in the bin of `nb`

  /** The deepest right subtree passed by on the way to `q`: above every size below `q`. */
  ghost predicate Untaken(rings: Rings, i: int, q: Place, rst: int, rq: Place) {
    rst != 0 ==> rq in rings && ValidPlace(rq) && Bin(rq) == i && rst == HeadOf(rings, rq) && Lo(rq) >= Hi(q)
  }

  /** Every chunk of bin `i` that would fit better is below `q`, or in that subtree, or larger than it. */
  ghost predicate Narrowed(c: Chunks, spot: Spots, i: int, nb: int, rsize: int, q: Place, rst: int, rq: Place) {
    forall y :: InTrie(spot, y) && Bin(spot[y]) == i && At(c, y).size >= nb ==>
        NarrowedOne(c, spot, nb, rsize, q, rst, rq, y)
  }

  ghost predicate NarrowedOne(c: Chunks, spot: Spots, nb: int, rsize: int, q: Place, rst: int, rq: Place, y: int)
    requires y in spot
  {
    rsize <= At(c, y).size - nb || Under(spot[y], q) || (rst != 0 && (Under(spot[y], rq) || At(c, y).size >= Hi(rq)))
  }

  lemma BinnedSize(c: Chunks, rings: Rings, spot: Spots, y: int, q: Place)
    requires Members(rings, spot) && SizesOk(c, spot) && InTrie(spot, y) && Under(spot[y], q)
    ensures Lo(q) <= At(c, y).size < Hi(q) && ValidPlace(q)
  {
    assert RingShape(spot[y], rings[spot[y]]);
    assert SizeAt(spot[y], At(c, y).size, At(c, y).index);
    UnderRange(spot[y], q);
  }

  /** One step down: to the side of `nb`, remembering the right subtree when it is not taken. */
  lemma NarrowStep(c: Chunks, treebins: seq<int>, treemap: nat, smallmap: nat, rings: Rings, spot: Spots,
                   i: int, nb: int, rsize: int, q: Place, rst: int, rq: Place, b: bool, rst': int, rq': Place)
    requires BinnedOk(c, treebins, treemap, smallmap, rings, spot) && q in rings && ValidPlace(q) && 0 < Log(q) &&
      Bin(q) == i
    requires Lo(q) <= nb < Hi(q) && (b <==> nb >= Lo(Sub(q, true)))
    requires Untaken(rings, i, q, rst, rq) && Narrowed(c, spot, i, nb, rsize, q, rst, rq)
    requires At(c, HeadOf(rings, q)).size >= nb ==> rsize <= At(c, HeadOf(rings, q)).size - nb
    requires
      if !b && Sub(q, true) in rings then rq' == Sub(q, true) && rst' == HeadOf(rings, rq')
      else rq' == rq && rst' == rst
    ensures Untaken(rings, i, Sub(q, b), rst', rq') && Narrowed(c, spot, i, nb, rsize, Sub(q, b), rst', rq')
  {
    hide RingsOk, ChainedOk, BinsOk, NodesOk, SizesOk, Members, Under, Lo, Hi, ValidPlace;
    SubForm(q);
    forall y | InTrie(spot, y) && Bin(spot[y]) == i && At(c, y).size >= nb
      ensures NarrowedOne(c, spot, nb, rsize, Sub(q, b), rst', rq', y)
    {
      NarrowOne(c, rings, spot, nb, rsize, q, rst, rq, b, rst', rq', y);
    }
    if rst' != 0 && rst' != rst { HeadSpot(rings, spot, rq'); }
  }

  lemma NarrowOne(c: Chunks, rings: Rings, spot: Spots, nb: int, rsize: int, q: Place, rst: int, rq: Place, b: bool,
      rst': int, rq': Place, y: int)
    requires Members(rings, spot) && SizesOk(c, spot) && NodesOk(c, rings) && q in rings && ValidPlace(q) && 0 < Log(q)
    requires b <==> nb >= Lo(Sub(q, true))
    requires rst != 0 ==> Lo(rq) >= Hi(q)
    requires At(c, HeadOf(rings, q)).size >= nb ==> rsize <= At(c, HeadOf(rings, q)).size - nb
    requires
      if !b && Sub(q, true) in rings then rq' == Sub(q, true) && rst' == HeadOf(rings, rq')
      else rq' == rq && rst' == rst
    requires InTrie(spot, y) && At(c, y).size >= nb && NarrowedOne(c, spot, nb, rsize, q, rst, rq, y)
    ensures NarrowedOne(c, spot, nb, rsize, Sub(q, b), rst', rq', y)
  {
    hide Under, Lo, Width, ValidPlace, NodesOk;
    HeadSpot(rings, spot, q);
    SubForm(q);
    if rst' != rst && Sub(q, true) in rings { HeadSpot(rings, spot, Sub(q, true)); }
    if Under(spot[y], q) && spot[y] != q {
      BelowChild(c, rings, spot, q, y);
      if !b && At(c, y).size >= Lo(Sub(q, true)) {
        BelowOccupied(c, rings, spot, y, Sub(q, true));
        HeadSpot(rings, spot, Sub(q, true));
      }
    }
    if rst != 0 && Under(spot[y], rq) { BinnedSize(c, rings, spot, y, rq); }
  }

  // ----- the other bins

  lemma AboveBin(c: Chunks, rings: Rings, spot: Spots, nb: int, y: int)
    requires Members(rings, spot) && SizesOk(c, spot) && MIN_LARGE <= nb < WORD
    requires InTrie(spot, y) && At(c, y).size >= nb && Bin(spot[y]) != Index(nb)
    ensures 0 <= Index(nb) < Bin(spot[y]) < NTREEBINS
    ensures EndSize(Index(nb)) <= MinSize(Bin(spot[y])) <= At(c, y).size
  {
    hide Index, MinSize, EndSize;
    assert SizeAt(spot[y], At(c, y).size, At(c, y).index);
    IndexMono(nb, At(c, y).size);
    IndexRange(nb);
    IndexRange(At(c, y).size);
    MinMono(Index(nb), Bin(spot[y]));
  }

  /** Places of a bin other than the last hold no size of a higher bin. */
  lemma BinCeiling(q: Place)
    requires ValidPlace(q) && 0 <= Bin(q) < NTREEBINS - 1
    ensures Hi(q) <= EndSize(Bin(q))
  {
    hide Pow2, MinSize, EndSize;
    UnderRoot(q);
    UnderRange(q, Apex(Bin(q)));
    MinSizeForm(Bin(q));
  }

  /** What the search in the bin of `nb` leaves to do. */
  lemma BinDone(c: Chunks, treebins: seq<int>, treemap: nat, smallmap: nat, rings: Rings, spot: Spots, nb: int, v: int,
      rsize: int, q: Place, rst: int, rq: Place)
    requires BinnedOk(c, treebins, treemap, smallmap, rings, spot) && MIN_LARGE <= nb < WORD &&
      Candidate(c, spot, nb, v, rsize)
    requires v != 0 ==> Bin(spot[v]) == Index(nb)
    requires q !in rings && nb < Hi(q) && Untaken(rings, Index(nb), q, rst, rq) &&
      Narrowed(c, spot, Index(nb), nb, rsize, q, rst, rq)
    ensures rst != 0 ==>
      && rq in rings && !rq.Small? && rst == HeadOf(rings, rq) && Covered(c, spot, nb, rsize, rq)
      && AllFit(c, spot, nb, rq)
    ensures rst == 0 && v != 0 ==> Settled(c, spot, nb, rsize)
    ensures rst == 0 && v == 0 ==> forall y :: InTrie(spot, y) && Bin(spot[y]) == Index(nb) ==> At(c, y).size < nb
  {
    hide RingsOk, ChainedOk, BinsOk, NodesOk, SizesOk, Members, Under, Lo, Width, ValidPlace, Index, EndSize, MinSize;
    forall y | InTrie(spot, y) && At(c, y).size >= nb
      ensures Bin(spot[y]) == Index(nb) ==> !Under(spot[y], q) && NarrowedOne(c, spot, nb, rsize, q, rst, rq, y)
      ensures Bin(spot[y]) != Index(nb) && rst != 0 ==> At(c, y).size >= Hi(rq)
      ensures Bin(spot[y]) != Index(nb) && v != 0 ==> rsize <= At(c, y).size - nb
      ensures At(c, y).size < WORD
    {
      DoneOne(c, treebins, treemap, smallmap, rings, spot, nb, v, q, rst, rq, y);
    }
    if rst != 0 {
      forall y | InTrie(spot, y) && Under(spot[y], rq)
        ensures At(c, y).size >= nb
      {
        BinnedSize(c, rings, spot, y, rq);
      }
    }
  }

  lemma DoneOne(c: Chunks, treebins: seq<int>, treemap: nat, smallmap: nat, rings: Rings, spot: Spots, nb: int, v: int,
      q: Place, rst: int, rq: Place, y: int)
    requires BinnedOk(c, treebins, treemap, smallmap, rings, spot) && MIN_LARGE <= nb < WORD
    requires v != 0 ==> InTrie(spot, v) && Bin(spot[v]) == Index(nb)
    requires q !in rings && Untaken(rings, Index(nb), q, rst, rq) && InTrie(spot, y) && At(c, y).size >= nb
    ensures !Under(spot[y], q) && At(c, y).size < WORD
    ensures Bin(spot[y]) != Index(nb) && rst != 0 ==> At(c, y).size >= Hi(rq)
    ensures Bin(spot[y]) != Index(nb) && v != 0 ==> At(c, v).size <= At(c, y).size
  {
    hide RingsOk, ChainedOk, BinsOk, NodesOk, Under, Lo, Width, ValidPlace, EndSize, MinSize;
    assert SizeAt(spot[y], At(c, y).size, At(c, y).index);
    if Under(spot[y], q) { BelowOccupied(c, rings, spot, y, q); }
    if Bin(spot[y]) != Index(nb) {
      AboveBin(c, rings, spot, nb, y);
      if rst != 0 { BinCeiling(rq); }
      if v != 0 {
        assert SizeAt(spot[v], At(c, v).size, At(c, v).index);
        IndexRange(At(c, v).size);
      }
    }
  }

  /** The step to the next marked bin when the bin of `nb` has nothing that fits. */
  lemma NextBinStart(c: Chunks, treebins: seq<int>, treemap: nat, smallmap: nat, rings: Rings, spot: Spots, nb: int)
    requires BinnedOk(c, treebins, treemap, smallmap, rings, spot) && MIN_LARGE <= nb < WORD
    requires forall y :: InTrie(spot, y) && Bin(spot[y]) == Index(nb) ==> At(c, y).size < nb
    ensures 0 <= Index(nb) < NTREEBINS && |treebins| == NTREEBINS
    ensures var i := NextBin(Index(nb), treemap);
      && i <= NTREEBINS
      && (i == NTREEBINS ==> NoneFits(c, spot, nb))
      && (i < NTREEBINS ==> Apex(i) in rings && treebins[i] == HeadOf(rings, Apex(i)) && AllFit(c, spot, nb, Apex(i)))
      && (i < NTREEBINS ==> forall rsize :: Covered(c, spot, nb, rsize, Apex(i)))
  {
    hide RingsOk, ChainedOk, NodesOk, SizesOk, Members, Under, Lo, Width, ValidPlace, Index, EndSize, MinSize, Bit,
      NextBin;
    IndexRange(nb);
    NextBinLeast(Index(nb), treemap);
    var i := NextBin(Index(nb), treemap);
    if i < NTREEBINS { assert BinOk(treebins, treemap, smallmap, rings, i); }
    forall y | InTrie(spot, y)
      ensures At(c, y).size >= nb ==> i < NTREEBINS && (Under(spot[y], Apex(i)) || At(c, y).size >= Hi(Apex(i)))
      ensures i < NTREEBINS && Under(spot[y], Apex(i)) ==> At(c, y).size >= nb
    {
      NextBinOne(c, treebins, treemap, smallmap, rings, spot, nb, i, y);
    }
  }

  lemma NextBinOne(c: Chunks, treebins: seq<int>, treemap: nat, smallmap: nat, rings: Rings, spot: Spots, nb: int,
      i: int, y: int)
    requires BinnedOk(c, treebins, treemap, smallmap, rings, spot) && MIN_LARGE <= nb < WORD && InTrie(spot, y)
    requires At(c, y).size >= nb ==> Bin(spot[y]) != Index(nb)
    requires 0 <= Index(nb) < i <= NTREEBINS && (forall j :: Index(nb) < j < i ==> !Bit(treemap, j))
    ensures At(c, y).size >= nb ==> i < NTREEBINS && (Under(spot[y], Apex(i)) || At(c, y).size >= Hi(Apex(i)))
    ensures i < NTREEBINS && Under(spot[y], Apex(i)) ==> At(c, y).size >= nb
  {
    hide RingsOk, ChainedOk, NodesOk, Lo, Width, EndSize, MinSize, Bit, Index;
    var q := spot[y];
    assert SizeAt(q, At(c, y).size, At(c, y).index) && RingShape(q, rings[q]);
    UnderRoot(q);
    OccupiedAbove(c, rings, q, Apex(Bin(q)));
    BinRange(q);
    assert BinOk(treebins, treemap, smallmap, rings, Bin(q));
    if At(c, y).size >= nb {
      AboveBin(c, rings, spot, nb, y);
      if i < Bin(q) { MinMono(i, Bin(q)); BinCeiling(Apex(i)); }
    } else if i < NTREEBINS && Under(q, Apex(i)) {
      UnderRange(q, Apex(i));
      IndexMono(At(c, y).size, nb);
    }
  }

  // ----- the walk of `tmalloc_large`

  ghost predicate Walk(c: Chunks, rings: Rings, spot: Spots, q: Place, nb: int, t: int, k: int) {
    && 0 <= nb < WORD && q in rings && ValidPlace(q) && t == HeadOf(rings, q) && Bin(q) == Index(nb)
    && Lo(q) <= nb < Hi(q) && k == Key(q, nb) && 0 <= k
  }

  lemma StartBin(c: Chunks, treebins: seq<int>, treemap: nat, smallmap: nat, rings: Rings, spot: Spots, nb: int)
    requires BinnedOk(c, treebins, treemap, smallmap, rings, spot) && MIN_LARGE <= nb < WORD
    ensures 0 <= Index(nb) < NTREEBINS && |treebins| == NTREEBINS && Minus(0, nb) == WORD - nb
    ensures var q := Apex(Index(nb)); var t := treebins[Index(nb)];
      && (t != 0 ==> Walk(c, rings, spot, q, nb, t, Shl(nb, LeftShift(Index(nb)))))
      && (t == 0 ==> forall y :: InTrie(spot, y) ==> Bin(spot[y]) != Index(nb))
      && Untaken(rings, Index(nb), q, 0, q) && Narrowed(c, spot, Index(nb), nb, WORD - nb, q, 0, q)
  {
    hide BinnedOk, Index, Walk, Narrowed, Shl, LeftShift;
    IndexRange(nb);
    BinHead(c, treebins, treemap, smallmap, rings, spot, Index(nb));
    var q, t := Apex(Index(nb)), treebins[Index(nb)];
    forall y | InTrie(spot, y) && Bin(spot[y]) == Index(nb)
      ensures Under(spot[y], q) && q in rings
    {
      UnderBin(c, treebins, treemap, smallmap, rings, spot, y);
    }
    if q in rings { StartWalk(c, rings, spot, nb); }
    StartNarrow(c, spot, nb);
  }

  lemma BinHead(c: Chunks, treebins: seq<int>, treemap: nat, smallmap: nat, rings: Rings, spot: Spots, i: int)
    requires BinnedOk(c, treebins, treemap, smallmap, rings, spot) && 0 <= i < NTREEBINS
    ensures |treebins| == NTREEBINS && treebins[i] == HeadOf(rings, Apex(i))
    ensures treebins[i] != 0 <==> Apex(i) in rings
  {
    hide RingsOk, SizesOk, NodesOk, ChainedOk, Bit;
    assert BinOk(treebins, treemap, smallmap, rings, i);
    if Apex(i) in rings { HeadSpot(rings, spot, Apex(i)); }
  }

  lemma UnderBin(c: Chunks, treebins: seq<int>, treemap: nat, smallmap: nat, rings: Rings, spot: Spots, y: int)
    requires BinnedOk(c, treebins, treemap, smallmap, rings, spot) && InTrie(spot, y)
    ensures Under(spot[y], Apex(Bin(spot[y]))) && Apex(Bin(spot[y])) in rings
  {
    hide RingsOk, SizesOk, ChainedOk, BinsOk;
    assert RingShape(spot[y], rings[spot[y]]);
    UnderRoot(spot[y]);
    BelowOccupied(c, rings, spot, y, Apex(Bin(spot[y])));
  }

  lemma StartWalk(c: Chunks, rings: Rings, spot: Spots, nb: int)
    requires MIN_LARGE <= nb < WORD && 0 <= Index(nb) < NTREEBINS && Apex(Index(nb)) in rings
    ensures Walk(c, rings, spot, Apex(Index(nb)), nb, HeadOf(rings, Apex(Index(nb))), Shl(nb, LeftShift(Index(nb))))
  {
    hide Index, Key, Shl, LeftShift, Lo, Hi, ValidPlace, HeadOf;
    KeyRoot(nb);
  }

  lemma StartNarrow(c: Chunks, spot: Spots, nb: int)
    requires MIN_LARGE <= nb < WORD
    requires forall y :: InTrie(spot, y) && Bin(spot[y]) == Index(nb) ==> Under(spot[y], Apex(Index(nb)))
    ensures Narrowed(c, spot, Index(nb), nb, WORD - nb, Apex(Index(nb)), 0, Apex(Index(nb)))
  {
    hide Index, Under, Hi;
  }

  lemma TrieSize(c: Chunks, treebins: seq<int>, treemap: nat, smallmap: nat, rings: Rings, spot: Spots, t: int)
    requires BinnedOk(c, treebins, treemap, smallmap, rings, spot) && t in spot && !spot[t].Small?
    ensures MIN_LARGE <= At(c, t).size < WORD
  {
    assert SizeAt(spot[t], At(c, t).size, At(c, t).index);
  }

  lemma ExactFit(c: Chunks, spot: Spots, nb: int, q: Place)
    ensures Covered(c, spot, nb, 0, q)
  {
  }

  lemma StillNarrowed(c: Chunks, spot: Spots, i: int, nb: int, rsize: int, rsize': int, q: Place, rst: int, rq: Place)
    requires Narrowed(c, spot, i, nb, rsize, q, rst, rq) && rsize' <= rsize
    ensures Narrowed(c, spot, i, nb, rsize', q, rst, rq)
  {
    hide Under, Hi;
    forall y | InTrie(spot, y) && Bin(spot[y]) == i && At(c, y).size >= nb
      ensures NarrowedOne(c, spot, nb, rsize', q, rst, rq, y)
    {
      assert NarrowedOne(c, spot, nb, rsize, q, rst, rq, y);
    }
  }

  lemma WalkStep(c: Chunks, treebins: seq<int>, treemap: nat, smallmap: nat, rings: Rings, spot: Spots, q: Place,
      nb: int, t: int, k: int, rsize: int)
    requires BinnedOk(c, treebins, treemap, smallmap, rings, spot)
    requires Walk(c, rings, spot, q, nb, t, k) && At(c, t).size != nb
    ensures 0 < Log(q) && 0 <= k < WORD && Log(Sub(q, TopBit(k))) == Log(q) - 1 &&
      (TopBit(k) <==> nb >= Lo(Sub(q, true)))
    ensures nb < Hi(Sub(q, TopBit(k)))
    ensures Sub(q, TopBit(k)) in rings ==> Walk(c, rings, spot, Sub(q, TopBit(k)), nb, HeadOf(rings, Sub(q, TopBit(k))),
      Shl(k, 1))
  {
    hide RingsOk, NodesOk, ChainedOk, BinsOk, Index, Key, Shl, TopBit;
    HeadSpot(rings, spot, q);
    assert SizeAt(spot[t], At(c, t).size, At(c, t).index);
    assert Pow2(0) == 1;
    KeyStep(q, nb);
  }

  lemma NoneSettled(c: Chunks, spot: Spots, nb: int)
    requires NoneFits(c, spot, nb)
    ensures Settled(c, spot, nb, WORD - nb)
  {
  }

  lemma SettledBest(c: Chunks, treebins: seq<int>, treemap: nat, smallmap: nat, rings: Rings, spot: Spots, nb: int,
      v: int, rsize: int)
    requires BinnedOk(c, treebins, treemap, smallmap, rings, spot) && Candidate(c, spot, nb, v, rsize) &&
      Settled(c, spot, nb, rsize)
    ensures v == 0 ==> NoneFits(c, spot, nb)
    ensures v != 0 ==> Best(c, spot, nb, v)
  {
    hide Members, RingsOk, NodesOk, ChainedOk, BinsOk;
    AllLarge(c, treebins, treemap, smallmap, rings, spot);
  }

  lemma AllLarge(c: Chunks, treebins: seq<int>, treemap: nat, smallmap: nat, rings: Rings, spot: Spots)
    requires BinnedOk(c, treebins, treemap, smallmap, rings, spot)
    ensures forall y :: InTrie(spot, y) ==> MIN_LARGE <= At(c, y).size < WORD
  {
    forall y | InTrie(spot, y)
      ensures MIN_LARGE <= At(c, y).size < WORD
    {
      TrieSize(c, treebins, treemap, smallmap, rings, spot, y);
    }
  }

  lemma StillCovered(c: Chunks, spot: Spots, nb: int, rsize: int, rsize': int, q: Place)
    requires Covered(c, spot, nb, rsize, q) && rsize' <= rsize
    ensures Covered(c, spot, nb, rsize', q)
  {
    hide Under, Hi;
  }

  lemma HeadFits(c: Chunks, spot: Spots, nb: int, q: Place, t: int)
    requires InTrie(spot, t) && spot[t] == q
    ensures AllFit(c, spot, nb, q) ==> At(c, t).size >= nb
  {
  }

  /** The lowest marked bin holds the smallest chunks. */
  lemma FirstBinStart(c: Chunks, treebins: seq<int>, treemap: nat, smallmap: nat, rings: Rings, spot: Spots, nb: int)
    requires BinnedOk(c, treebins, treemap, smallmap, rings, spot) && 0 < nb < MIN_LARGE && treemap != 0
    ensures treemap < WORD && LeastBit(treemap) > 0 && Ctz(LeastBit(treemap)) < NTREEBINS && |treebins| == NTREEBINS
    ensures var q := Apex(Ctz(LeastBit(treemap)));
      && q in rings && treebins[q.bin] == HeadOf(rings, q) && AllFit(c, spot, nb, q)
      && (forall rsize :: Covered(c, spot, nb, rsize, q))
  {
    hide RingsOk, ChainedOk, NodesOk, SizesOk, Members, Under, Lo, Width, ValidPlace, Index, EndSize, MinSize, Bit,
      LeastBit;
    FirstBinLeast(treemap);
    var i := Ctz(LeastBit(treemap));
    MarkedBound(treemap, i);
    assert BinOk(treebins, treemap, smallmap, rings, i);
    AllLarge(c, treebins, treemap, smallmap, rings, spot);
    forall y | InTrie(spot, y)
      ensures Under(spot[y], Apex(i)) || At(c, y).size >= Hi(Apex(i))
    {
      FirstBinOne(c, treebins, treemap, smallmap, rings, spot, i, y);
    }
  }

  lemma MarkedBound(m: nat, i: nat)
    requires m < WORD && Bit(m, i)
    ensures i < NTREEBINS
  {
    Buckets.Pow2Table();
    if i >= 32 { HighBits(m, 32, i); }
  }

  lemma FirstBinOne(c: Chunks, treebins: seq<int>, treemap: nat, smallmap: nat, rings: Rings, spot: Spots, i: int,
      y: int)
    requires BinnedOk(c, treebins, treemap, smallmap, rings, spot) && InTrie(spot, y)
    requires 0 <= i < NTREEBINS && (forall j: nat :: j < i ==> !Bit(treemap, j))
    ensures Under(spot[y], Apex(i)) || At(c, y).size >= Hi(Apex(i))
  {
    hide RingsOk, ChainedOk, NodesOk, Lo, Width, EndSize, MinSize, Bit, Index;
    var q := spot[y];
    assert SizeAt(q, At(c, y).size, At(c, y).index) && RingShape(q, rings[q]);
    UnderRoot(q);
    OccupiedAbove(c, rings, q, Apex(Bin(q)));
    BinRange(q);
    assert BinOk(treebins, treemap, smallmap, rings, Bin(q));
    if i < Bin(q) {
      IndexRange(At(c, y).size);
      MinMono(i, Bin(q));
      BinCeiling(Apex(i));
    }
  }

  /** The unsigned comparison of remainders with `dv`: a tree chunk wins if `dv` is too small or larger. */
  lemma FitsBetter(dvsize: int, nb: int, rsize: int)
    requires 0 <= dvsize <= WORD && 0 < nb < WORD
    ensures 0 <= rsize < WORD - nb ==> (rsize < Minus(dvsize, nb) <==> dvsize < nb || rsize + nb < dvsize)
  {
  }

  lemma NothingInTries(c: Chunks, treebins: seq<int>, treemap: nat, smallmap: nat, rings: Rings, spot: Spots)
    requires BinnedOk(c, treebins, treemap, smallmap, rings, spot)
    ensures treemap == 0 ==> forall y :: y in spot ==> spot[y].Small?
  {
    hide Bit, RingsOk, ChainedOk, SizesOk;
    forall y | y in spot && !spot[y].Small?
      ensures treemap != 0
    {
      var q := spot[y];
      assert RingShape(q, rings[q]);
      UnderRoot(q);
      OccupiedAbove(c, rings, q, Apex(Bin(q)));
      BinRange(q);
      assert BinOk(treebins, treemap, smallmap, rings, Bin(q));
      NoBit(Bin(q));
    }
  }

  lemma LargeNotBinned(c: Chunks, treebins: seq<int>, treemap: nat, smallmap: nat, rings: Rings, spot: Spots, nb: int,
      dvsize: int)
    requires BinnedOk(c, treebins, treemap, smallmap, rings, spot) && MIN_LARGE <= nb
    requires forall y :: InTrie(spot, y) ==> At(c, y).size < nb || nb <= dvsize <= At(c, y).size
    ensures nb <= dvsize || NoneBinned(c, spot, nb)
  {
    hide BinnedOk;
    forall y | y in spot
      ensures At(c, y).size < nb || nb <= dvsize
    {
      SmallOrLarge(c, treebins, treemap, smallmap, rings, spot, y);
    }
  }

  // ----- which chunk serves a request

  /** The bins are asked before `dv` for this chunk: it holds the request, and `dv` does not, or the chunk
      fits exactly if the request is small, and better than `dv` if it is large. */
  ghost predicate Preferred(c: Chunks, spot: Spots, nb: int, dvsize: int, y: int) {
    && y in spot && nb <= At(c, y).size
    && (dvsize < nb || (if nb < MIN_LARGE then At(c, y).size == nb else At(c, y).size < dvsize))
  }

  ghost predicate NonePreferred(c: Chunks, spot: Spots, nb: int, dvsize: int) {
    forall y :: !Preferred(c, spot, nb, dvsize, y)
  }

  /** A smallest chunk of all bins that holds the request. */
  ghost predicate FromBins(c: Chunks, spot: Spots, nb: int, dvsize: int, p: int) {
    && Preferred(c, spot, nb, dvsize, p)
    && forall y :: y in spot && nb <= At(c, y).size ==> At(c, p).size <= At(c, y).size
  }

  /** The chunk that `dlmalloc` takes: from the bins if one there is preferred, then `dv`, then `top`. */
  ghost predicate Served(c: Chunks, spot: Spots, nb: int, dv: int, dvsize: int, top: int, p: int) {
    if NonePreferred(c, spot, nb, dvsize) then p == (if nb <= dvsize then dv else top)
    else FromBins(c, spot, nb, dvsize, p)
  }

  lemma ServedByBins(c: Chunks, spot: Spots, nb: int, dv: int, dvsize: int, top: int, p: int)
    requires FromBins(c, spot, nb, dvsize, p)
    ensures Served(c, spot, nb, dv, dvsize, top, p)
  {
  }

  lemma ServedOtherwise(c: Chunks, spot: Spots, nb: int, dv: int, dvsize: int, top: int, p: int)
    requires NonePreferred(c, spot, nb, dvsize) && p == if nb <= dvsize then dv else top
    ensures Served(c, spot, nb, dv, dvsize, top, p)
  {
  }

  /** What `tmalloc_large` finds or does not find. */
  lemma LargeServed(c: Chunks, treebins: seq<int>, treemap: nat, smallmap: nat, rings: Rings, spot: Spots, nb: int,
      dvsize: int, p: int)
    requires BinnedOk(c, treebins, treemap, smallmap, rings, spot) && MIN_LARGE <= nb
    ensures Best(c, spot, nb, p) && (dvsize < nb || At(c, p).size < dvsize) ==> FromBins(c, spot, nb, dvsize, p)
    ensures (forall y :: InTrie(spot, y) ==> At(c, y).size < nb || nb <= dvsize <= At(c, y).size) ==>
      NonePreferred(c, spot, nb, dvsize)
  {
    hide BinnedOk;
    forall y | y in spot
      ensures spot[y].Small? ==> At(c, y).size < nb
    {
      SmallOrLarge(c, treebins, treemap, smallmap, rings, spot, y);
    }
  }

  /** The mark of the small bin of a binned chunk is set. */
  lemma SmallChunkMarked(c: Chunks, treebins: seq<int>, treemap: nat, smallmap: nat, rings: Rings, spot: Spots, y: int)
    requires BinnedOk(c, treebins, treemap, smallmap, rings, spot) && y in spot && At(c, y).size < MIN_LARGE
    ensures spot[y].Small? && 0 <= spot[y].slot < NSMALLBINS && At(c, y).size == 8 * spot[y].slot
    ensures Bit(smallmap, spot[y].slot)
  {
    hide Bit, RingsOk, ChainedOk, NodesOk;
    SmallOrLarge(c, treebins, treemap, smallmap, rings, spot, y);
    SlotSize(c, treebins, treemap, smallmap, rings, spot, y);
    assert RingShape(spot[y], rings[spot[y]]);
    assert BinOk(treebins, treemap, smallmap, rings, spot[y].slot);
  }

  /** No bin below `i` that could hold the request is marked, so a chunk of bin `i` is a smallest one. */
  lemma SmallServed(c: Chunks, treebins: seq<int>, treemap: nat, smallmap: nat, rings: Rings, spot: Spots, nb: int,
      dvsize: int, i: int, p: int)
    requires BinnedOk(c, treebins, treemap, smallmap, rings, spot) && 0 <= nb <= 8 * i < MIN_LARGE && nb % 8 == 0
    requires p in spot && At(c, p).size == 8 * i && (8 * i == nb || dvsize < nb)
    requires forall j: nat :: nb / 8 <= j < i ==> !Bit(smallmap, j)
    ensures FromBins(c, spot, nb, dvsize, p)
  {
    hide BinnedOk, Bit;
    forall y | y in spot && nb <= At(c, y).size
      ensures 8 * i <= At(c, y).size
    {
      if At(c, y).size < MIN_LARGE { SmallChunkMarked(c, treebins, treemap, smallmap, rings, spot, y); }
    }
  }

  /** No small bin holds the request, so a smallest tree chunk is a smallest one. */
  lemma TreeServed(c: Chunks, treebins: seq<int>, treemap: nat, smallmap: nat, rings: Rings, spot: Spots, nb: int,
      dvsize: int, p: int)
    requires BinnedOk(c, treebins, treemap, smallmap, rings, spot) && 0 <= nb < MIN_LARGE && nb % 8 == 0
    requires InTrie(spot, p) && (forall y :: InTrie(spot, y) ==> At(c, p).size <= At(c, y).size) && dvsize < nb
    requires Shr(smallmap, nb / 8) == 0
    ensures FromBins(c, spot, nb, dvsize, p)
  {
    hide BinnedOk, Bit, Shr;
    TrieSize(c, treebins, treemap, smallmap, rings, spot, p);
    forall y | y in spot && nb <= At(c, y).size
      ensures At(c, p).size <= At(c, y).size
    {
      SmallOrLarge(c, treebins, treemap, smallmap, rings, spot, y);
      if At(c, y).size < MIN_LARGE {
        SmallChunkMarked(c, treebins, treemap, smallmap, rings, spot, y);
        NoHigherBits(smallmap, nb / 8, spot[y].slot);
      }
    }
  }

  /** `dv` goes before the bins for a small request that no binned chunk fits exactly. */
  lemma NoneExact(c: Chunks, treebins: seq<int>, treemap: nat, smallmap: nat, rings: Rings, spot: Spots, nb: int,
      dvsize: int)
    requires BinnedOk(c, treebins, treemap, smallmap, rings, spot) && 0 <= nb < MIN_LARGE && nb % 8 == 0
    requires !Bit(smallmap, nb / 8) && (nb <= dvsize || NoneBinned(c, spot, nb))
    ensures NonePreferred(c, spot, nb, dvsize)
  {
    hide BinnedOk, Bit;
    forall y | y in spot
      ensures At(c, y).size != nb
    {
      if At(c, y).size == nb { SmallChunkMarked(c, treebins, treemap, smallmap, rings, spot, y); }
    }
  }
}
