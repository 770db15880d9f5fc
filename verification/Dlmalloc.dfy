/** dlmalloc's allocator state and its operations. */
module Dlmalloc {
  import opened Bits
  import opened TreeIndex
  import opened BinMaps
  import opened Places
  import opened Chunks
  import opened FreeBins
  import opened TrieSearch
  import opened BinSteps
  import opened BestFit
  import opened Regions
  import opened Segment

  const OVERHEAD: int := 4
  const MAX_SMALL_REQUEST: int := MIN_LARGE - 1 - 15 - OVERHEAD
  /** `(-MIN_CHUNK_SIZE) << 2` on 32 bits. */
  const MAX_REQUEST: int := WORD - 64

  /** The chunk size for a request; the largest word, which no chunk has, if it is too large. */
  function RequestSize(bytes: nat): (nb: nat) {
    if bytes < MIN_REGION - OVERHEAD - 1 then MIN_REGION
    else if bytes < MAX_REQUEST then AlignUp(bytes + OVERHEAD, 16)
    else WORD - 1
  }

  lemma RequestRange(bytes: nat)
    requires bytes < WORD
    ensures MIN_REGION <= RequestSize(bytes) < WORD
    ensures bytes < MAX_REQUEST ==> bytes + OVERHEAD <= RequestSize(bytes) && RequestSize(bytes) % 16 == 0
    ensures bytes < MAX_REQUEST ==> (bytes <= MAX_SMALL_REQUEST <==> RequestSize(bytes) < MIN_LARGE)
    ensures bytes >= MAX_REQUEST ==> RequestSize(bytes) == WORD - 1
  {
    if bytes < MAX_REQUEST { AlignUpMultiple(bytes + OVERHEAD, 16); }
  }

  /** A chunk of `size` bytes is a smallest one that holds `bytes` bytes and the overhead. */
  predicate JustHolds(size: int, bytes: int) {
    && size % 16 == 0 && MIN_REGION <= size && bytes + OVERHEAD <= size
    && (size == MIN_REGION || size < bytes + OVERHEAD + 16)
  }

  /** The padded request is the least chunk size that holds the bytes. */
  lemma RequestExact(bytes: nat, size: int)
    requires bytes < MAX_REQUEST && size % 16 == 0 && MIN_REGION <= size
    ensures JustHolds(RequestSize(bytes), bytes)
    ensures RequestSize(bytes) <= size <==> bytes + OVERHEAD <= size
    ensures RequestSize(bytes) <= size < RequestSize(bytes) + MIN_REGION <==> JustHolds(size, bytes)
  {
    AlignUpMultiple(bytes + OVERHEAD, 16);
    Steps16(RequestSize(bytes), size);
  }

  /** Multiples of 16 are 16 apart. */
  lemma Steps16(a: int, b: int)
    requires a % 16 == 0 && b % 16 == 0
    ensures a < b ==> a + 16 <= b
    ensures b < a ==> b + 16 <= a
  {
  }

  /** No free chunk holds the bytes; of `top` a minimal chunk must be left over. */
  ghost predicate NothingHolds(regs: Regions, top: int, bytes: int) {
    forall a :: IsFree(regs, a) ==> regs[a].size - (if a == top then MIN_REGION else 0) < bytes + OVERHEAD
  }

  /** The chunk at `p`, with a free one after it, holds the bytes. */
  ghost predicate RoomForBytes(regs: Regions, top: int, p: int, bytes: int)
    requires p in regs
  {
    var n := NextOf(regs, p);
    || bytes + OVERHEAD <= regs[p].size
    || (IsFree(regs, n) && bytes + OVERHEAD <= regs[p].size + regs[n].size - (if n == top then MIN_REGION else 0))
  }

  lemma NothingFitsBytes(c: Chunks, regs: Regions, lo: int, hi: int, h: Pool, bytes: nat)
    requires SegOk(c, regs, lo, hi, h) && bytes < MAX_REQUEST && NothingFits(regs, h.top, RequestSize(bytes))
    ensures NothingHolds(regs, h.top, bytes)
  {
    hide SegOk, RequestSize, JustHolds;
    forall a | IsFree(regs, a)
      ensures regs[a].size - (if a == h.top then MIN_REGION else 0) < bytes + OVERHEAD
    {
      SizeOf(c, regs, lo, hi, h, a);
      RequestExact(bytes, regs[a].size);
      if a == h.top && regs[a].size > MIN_REGION { RequestExact(bytes, regs[a].size - MIN_REGION); }
    }
  }

  lemma RoomForExact(c: Chunks, regs: Regions, lo: int, hi: int, h: Pool, p: int, bytes: nat)
    requires SegOk(c, regs, lo, hi, h) && bytes < MAX_REQUEST && p in regs
    ensures RoomFor(regs, h.top, p, RequestSize(bytes)) <==> RoomForBytes(regs, h.top, p, bytes)
  {
    hide SegOk, RequestSize, JustHolds;
    SizeOf(c, regs, lo, hi, h, p);
    RequestExact(bytes, regs[p].size);
    var n := NextOf(regs, p);
    if IsFree(regs, n) {
      SizeOf(c, regs, lo, hi, h, n);
      var both := regs[p].size + regs[n].size;
      RequestExact(bytes, both);
      RequestExact(bytes, both - MIN_REGION);
      Steps16(RequestSize(bytes), both);
    }
  }

  lemma JustAllocated(c: Chunks, c': Chunks, regs: Regions, regs': Regions, lo: int, hi: int, h: Pool, bytes: nat,
      p: int)
    requires Allocated(c, c', regs, regs', RequestSize(bytes), p) && SegOk(c', regs', lo, hi, h) && bytes < MAX_REQUEST
    ensures p in Live(regs') && JustHolds(Live(regs')[p], bytes)
  {
    hide SegOk, RequestSize, JustHolds, UserKept;
    SizeOf(c', regs', lo, hi, h, p);
    RequestExact(bytes, regs'[p].size);
  }

  lemma SizeOf(c: Chunks, regs: Regions, lo: int, hi: int, h: Pool, a: int)
    requires SegOk(c, regs, lo, hi, h) && a in regs
    ensures MIN_REGION <= regs[a].size && regs[a].size % 16 == 0
  {
    hide Heads, Cover, Coalesced, HasNext, HasPrev;
  }

  /** What is kept free at the end of a segment. */
  const TOP_FOOT_SIZE: int := 56

  /** `align_offset`: how far it is to the next multiple of 16. */
  function AlignOffset(a: int): (offset: int)
    ensures 0 <= offset < 16 && (a + offset) % 16 == 0
  {
    if a % 16 == 0 then 0 else 16 - a % 16
  }

  class Mstate {
    var chunk: Chunks
    var treebins: seq<int>
    var treemap: nat
    var smallmap: nat
    const leastAddr: int
    var top: int
    var topsize: int
    var dv: int
    var dvsize: int
    /** The segment, and its subdivision into chunks. */
    ghost const lo: int
    ghost const hi: int
    ghost var regs: Regions
    ghost var rings: Rings
    ghost var spot: Spots

    ghost predicate Binned()
      reads this
    {
      && BinnedOk(chunk, treebins, treemap, smallmap, rings, spot)
      && (forall a :: a in spot ==> leastAddr <= a)
      && 0 < leastAddr
    }

    /** The address check of `RTCHECK`. */
    predicate OkAddress(a: int) { leastAddr <= a }

    // ----- insert_large_chunk

    /** The walk of `insert_large_chunk`: to the node of size `s`, or to the node whose empty child
        `right` is the place for it. */
    method Descend(s: int) returns (t: int, right: bool, ghost q: Place)
      requires Binned() && MIN_LARGE <= s < WORD && 0 <= Index(s) < NTREEBINS && Bit(treemap, Index(s))
      ensures q in rings && !q.Small? && t == HeadOf(rings, q) && t in spot && spot[t] == q
      ensures At(chunk, t).size != s ==> CanHangAt(chunk, rings, spot, Sub(q, right), s)
      ensures At(chunk, t).size == s ==> SizeAt(q, s, Index(s))
    {
      hide BinnedOk, Members, RingsOk, ChainedOk, SizesOk, NodesOk, Index, ValidPlace, Lo, Key, Log, OnPath, Bit, Shl,
        LeftShift, HeadOf;
      DescentStart(chunk, treebins, treemap, smallmap, rings, spot, s);
      var i := Index(s);
      t := treebins[i];
      var k := Shl(s, LeftShift(i));
      q := Apex(i);
      right := false;
      while At(chunk, t).size != s
        invariant Descent(chunk, rings, spot, q, s, t, k)
        decreases Log(q)
      {
        DescentStep(chunk, treebins, treemap, smallmap, rings, spot, q, s, t, k);
        right := TopBit(k);
        k := Shl(k, 1);
        var child := if right then At(chunk, t).right else At(chunk, t).left;
        if child == 0 { break; }
        t := child;
        q := Sub(q, right);
      }
    }

    method LinkChild(x: int, t: int, right: bool, ghost q: Place, ghost c: Chunks)
      requires BinnedOk(c, treebins, treemap, smallmap, rings, spot) && q in rings && !q.Small? && t == HeadOf(rings, q)
      requires x > 0 && x !in spot && CanHangAt(c, rings, spot, Sub(q, right), At(c, x).size)
      requires chunk == c[x := At(c, x).(index := Bin(q), left := 0, right := 0)]
      modifies `chunk, `rings, `spot
      ensures BinnedOk(chunk, treebins, treemap, smallmap, rings, spot)
      ensures spot == old(spot)[x := Sub(q, right)] && Relinked(c, chunk, old(spot).Keys + {x})
    {
      hide BinnedOk, ValidPlace, SizeAt, Relinked;
      assert t != x by { HeadUnlike(c, treebins, treemap, smallmap, rings, spot, q, x); }
      chunk := chunk[t := WithChild(At(chunk, t), right, x)];
      chunk := chunk[x := At(chunk, x).(parent := t, fd := x, bk := x)];
      HangStep(c, chunk, treebins, treemap, smallmap, rings, spot, Sub(q, right), x);
      rings, spot := Placed(rings, Sub(q, right), x), spot[x := Sub(q, right)];
    }

    /** `insert_large_chunk` */
    method InsertLarge(x: int, s: int)
      requires Binned() && leastAddr <= x && x !in spot && At(chunk, x).size == s && MIN_LARGE <= s < WORD
      modifies `chunk, `treebins, `treemap, `rings, `spot
      ensures Binned() && spot.Keys == old(spot.Keys) + {x} && Relinked(old(chunk), chunk, spot.Keys)
    {
      hide BinnedOk, Members, RingsOk, ChainedOk, SizesOk, NodesOk, Index, ValidPlace, Lo, Hi, Bit, SetBit, Relinked,
        LinkAfter;
      ghost var c, sp := chunk, spot;
      IndexRange(s);
      var i := Index(s);
      chunk := chunk[x := At(chunk, x).(index := i, left := 0, right := 0)];
      BinnedFrame(c, chunk, treebins, treemap, smallmap, rings, spot);
      if !Bit(treemap, i) {
        ghost var q := Apex(i);
        EmptyBin(c, treebins, treemap, smallmap, rings, spot, s);
        treemap := SetBit(treemap, i);
        treebins := treebins[i := x];
        chunk := chunk[x := At(chunk, x).(parent := TreeBin(i), fd := x, bk := x)];
        HangStep(c, chunk, old(treebins), old(treemap), smallmap, rings, spot, q, x);
        rings, spot := Placed(rings, q, x), spot[x := q];
      } else {
        var t, right, q := Descend(s);
        if At(chunk, t).size != s {
          assert OkAddress(t);
          LinkChild(x, t, right, q, c);
        } else {
          assert OkAddress(t);
          chunk := chunk[x := At(chunk, x).(parent := 0)];
          BinnedFrame(c, chunk, treebins, treemap, smallmap, rings, spot);
          SameSize(chunk, treebins, treemap, smallmap, rings, spot, q, x);
          assert OkAddress(At(chunk, t).fd);
          ghost var c1 := chunk;
          ChainStep(chunk, treebins, treemap, smallmap, rings, spot, q, x);
          chunk := LinkAfter(chunk, t, x);
          rings, spot := Chained(rings, q, x), spot[x := q];
          RelinkedFrom(c, c1, chunk, sp.Keys, x);
        }
      }
      assert spot.Keys == sp.Keys + {x};
    }

    // ----- unlink_large_chunk

    /** A leaf below `x`, found by going right where possible; and the node and side that refer to it. */
    method RightmostLeaf(x: int, ghost q: Place) returns (r: int, up: int, right: bool, ghost rq: Place)
      requires Binned() && q in rings && !q.Small? && x == HeadOf(rings, q)
      ensures r == 0 ==> IsLeaf(rings, q)
      ensures r != 0 ==> IsLeaf(rings, rq) && Under(rq, q) && rq != q && r == HeadOf(rings, rq)
      ensures r != 0 ==> rq.Sub? && right == rq.right && up == UpOf(rings, rq) && up in spot
    {
      hide BinnedOk, HeadOf, ValidPlace;
      NodeFields(chunk, treebins, treemap, smallmap, rings, spot, q);
      up, right, rq := x, true, Sub(q, true);
      r := At(chunk, x).right;
      if r == 0 {
        right, rq := false, Sub(q, false);
        r := At(chunk, x).left;
      }
      if r != 0 {
        NodeFields(chunk, treebins, treemap, smallmap, rings, spot, rq);
        while At(chunk, r).right != 0 || At(chunk, r).left != 0
          invariant rq in rings && rq.Sub? && Under(rq, q) && rq != q && r == HeadOf(rings, rq) &&
            up == UpOf(rings, rq) && up in spot && right == rq.right
          invariant Fields(chunk, rings, spot, rq)
          decreases Log(rq)
        {
          up, right := r, At(chunk, r).right != 0;
          UnderChild(rq, q, right);
          r := if right then At(chunk, r).right else At(chunk, r).left;
          rq := Sub(rq, right);
          NodeFields(chunk, treebins, treemap, smallmap, rings, spot, rq);
        }
      }
    }

    /** What refers to the chunk `x` at `q` is made to refer to `r`. */
    method SetSlot(x: int, r: int, xp: int, ghost rs: Rings, ghost q: Place)
      requires |treebins| == NTREEBINS && (forall i :: 0 <= i < NTREEBINS ==> treebins[i] == HeadOf(rs, Apex(i)))
      requires HeadsApart(rs) && q in rs && ValidPlace(q) && x == HeadOf(rs, q) && xp == UpOf(rs, q) &&
        At(chunk, x).index == Bin(q)
      requires NodeOk(chunk, rs, q) && (q.Sub? ==> NodeOk(chunk, rs, q.up) && OkAddress(xp))
      modifies `chunk, `treebins, `treemap
      ensures 0 <= Bin(q) < NTREEBINS && treebins == Treebins(old(treebins), q, r)
      ensures treemap == if q.Apex? && r == 0 then ClearBit(old(treemap), Bin(q)) else old(treemap)
      ensures chunk == if q.Sub? then old(chunk)[xp := WithChild(At(old(chunk), xp), q.right, r)] else old(chunk)
    {
      BinRange(q);
      var i := At(chunk, x).index;
      if x == treebins[i] {
        assert q == Apex(i);
        treebins := treebins[i := r];
        if r == 0 { treemap := ClearBit(treemap, i); }
      } else {
        assert q.Sub?;
        assert OkAddress(xp);
        if At(chunk, xp).left == x {
          chunk := chunk[xp := At(chunk, xp).(left := r)];
        } else {
          chunk := chunk[xp := At(chunk, xp).(right := r)];
        }
      }
    }

    /** `r` becomes the parent of the children of `x`. */
    method Adopt(x: int, r: int, xp: int)
      requires x != r && r != 0 && At(chunk, r).left == 0 && At(chunk, r).right == 0
      requires At(chunk, x).left != 0 ==> At(chunk, x).left !in {x, r, At(chunk, x).right}
      requires At(chunk, x).right != 0 ==> At(chunk, x).right !in {x, r}
      modifies `chunk
      ensures var k := At(old(chunk), x);
        && At(chunk, r) == At(old(chunk), r).(parent := xp, left := k.left, right := k.right)
        && (k.left != 0 ==> At(chunk, k.left) == At(old(chunk), k.left).(parent := r))
        && (k.right != 0 ==> At(chunk, k.right) == At(old(chunk), k.right).(parent := r))
        && (forall a :: a != r && (a == 0 || (a != k.left && a != k.right)) ==> At(chunk, a) == At(old(chunk), a))
    {
      chunk := chunk[r := At(chunk, r).(parent := xp)];
      var c0 := At(chunk, x).left;
      if c0 != 0 {
        chunk := chunk[r := At(chunk, r).(left := c0)];
        chunk := chunk[c0 := At(chunk, c0).(parent := r)];
      }
      var c1 := At(chunk, x).right;
      if c1 != 0 {
        chunk := chunk[r := At(chunk, r).(right := c1)];
        chunk := chunk[c1 := At(chunk, c1).(parent := r)];
      }
    }

    /** The last part of `unlink_large_chunk`: `r` takes the place of the trie node `x`. */
    method Replace(x: int, r: int, xp: int, ghost rs: Rings, ghost q: Place)
      requires |treebins| == NTREEBINS && (forall i :: 0 <= i < NTREEBINS ==> treebins[i] == HeadOf(rs, Apex(i)))
      requires NodesOk(chunk, rs) && HeadsApart(rs) && q in rs && ValidPlace(q)
      requires x == HeadOf(rs, q) && xp == UpOf(rs, q) && At(chunk, x).index == Bin(q) && (q.Sub? ==> OkAddress(xp))
      requires r != 0 ==> Spare(rs, r) && At(chunk, r).left == 0 && At(chunk, r).right == 0
      modifies `chunk, `treebins, `treemap
      ensures 0 <= Bin(q) < NTREEBINS && treebins == Treebins(old(treebins), q, r)
      ensures treemap == if q.Apex? && r == 0 then ClearBit(old(treemap), Bin(q)) else old(treemap)
      ensures if r == 0 then Cleared(old(chunk), chunk, rs, q) else TookOver(old(chunk), chunk, rs, q, r)
    {
      hide NodesOk, ValidPlace, ClearBit, Treebins;
      NodeAt(chunk, rs, q);
      if q.Sub? { NodeAt(chunk, rs, q.up); }
      SetSlot(x, r, xp, rs, q);
      if r != 0 {
        NotAbove(q);
        Adopt(x, r, xp);
      }
    }

    /** `unlink_large_chunk` of a chunk that shares its place with others of its size. */
    method LeaveRing(x: int)
      requires Binned() && x in spot && !spot[x].Small? && At(chunk, x).bk != x
      modifies `chunk, `treebins, `treemap, `rings, `spot
      ensures Binned() && spot.Keys == old(spot.Keys) - {x} && Relinked(old(chunk), chunk, old(spot.Keys))
    {
      hide BinnedOk, ValidPlace, ClearBit, Relinked, TookOver, NodesOk, HeadsApart, Spare, UpOf, Beheaded, Without,
        Cleared;
      ghost var q, c, rs, sp, tb := spot[x], chunk, rings, spot, treebins;
      var xp := At(chunk, x).parent;
      ghost var p := RingNode(chunk, treebins, treemap, smallmap, rings, spot, x);
      var f, r := At(chunk, x).fd, At(chunk, x).bk;
      assert OkAddress(f) && At(chunk, f).bk == x && At(chunk, r).fd == x;
      chunk := chunk[f := At(chunk, f).(bk := r)];
      chunk := chunk[r := At(chunk, r).(fd := f)];
      assert chunk == Unlinked(c, x);
      if xp != 0 {
        HandReady(c, treebins, treemap, smallmap, rings, spot, q);
        assert q.Sub? ==> OkAddress(xp) by { UpBinned(c, treebins, treemap, smallmap, rings, spot, q); }
        Replace(x, r, xp, rings, q);
        HandStep(c, chunk, tb, treemap, smallmap, rings, spot, q);
        rings, spot := Handed(rings, q), spot - {x};
      } else {
        UnchainStep(c, treebins, treemap, smallmap, rings, spot, q, p);
        rings, spot := Unchained(rings, q, p), spot - {x};
      }
    }

    /** `unlink_large_chunk` of a chunk that is the only one of its size. */
    method LeaveTrie(x: int)
      requires Binned() && x in spot && !spot[x].Small? && At(chunk, x).bk == x
      modifies `chunk, `treebins, `treemap, `rings, `spot
      ensures Binned() && spot.Keys == old(spot.Keys) - {x} && Relinked(old(chunk), chunk, old(spot.Keys))
    {
      hide BinnedOk, ValidPlace, ClearBit, Relinked, TookOver, NodesOk, HeadsApart, Spare, UpOf, Cleared, IsLeaf, Under,
        LiftedSpot;
      ghost var q, c, tb, tm := spot[x], chunk, treebins, treemap;
      var xp := At(chunk, x).parent;
      ghost var p := RingNode(chunk, treebins, treemap, smallmap, rings, spot, x);
      SingleRing(chunk, treebins, treemap, smallmap, rings, spot, q, x);
      var r, up, right, rq := RightmostLeaf(x, q);
      if r != 0 {
        assert OkAddress(up);
        chunk := chunk[up := WithChild(At(chunk, up), right, 0)];
        ghost var c1 := chunk;
        LiftReady(c, c1, treebins, treemap, smallmap, rings, spot, q, rq, x);
        Replace(x, r, xp, rings - {rq}, q);
        LiftStep(c, c1, chunk, tb, treemap, smallmap, rings, spot, q, rq, x);
        rings, spot := Lifted(rings, q, rq), LiftedSpot(spot, x, q, rq);
        LiftedKeys(old(spot), x, q, rq);
      } else {
        Replace(x, r, xp, rings, q);
        DropStep(c, chunk, tb, tm, smallmap, rings, spot, q, x);
        rings, spot := rings - {q}, spot - {x};
      }
    }

    /** `unlink_large_chunk` */
    method UnlinkLarge(x: int)
      requires Binned() && x in spot && !spot[x].Small?
      modifies `chunk, `treebins, `treemap, `rings, `spot
      ensures Binned() && spot.Keys == old(spot.Keys) - {x} && Relinked(old(chunk), chunk, old(spot.Keys))
    {
      if At(chunk, x).bk != x { LeaveRing(x); } else { LeaveTrie(x); }
    }

    // ----- the search of tmalloc_large

    /** Looks in the bin of `nb`: the best chunk met, and the subtree still to be searched, if any. */
    method SearchBin(nb: int) returns (v: int, rsize: int, t: int, ghost tq: Place)
      requires Binned() && MIN_LARGE <= nb < WORD
      ensures Candidate(chunk, spot, nb, v, rsize)
      ensures t != 0 ==> tq in rings && !tq.Small? && t == HeadOf(rings, tq)
      ensures t != 0 ==> Covered(chunk, spot, nb, rsize, tq) && (rsize == 0 || AllFit(chunk, spot, nb, tq))
      ensures t == 0 && v != 0 ==> Settled(chunk, spot, nb, rsize)
      ensures t == 0 && v == 0 ==> forall y :: InTrie(spot, y) && Bin(spot[y]) == Index(nb) ==> At(chunk, y).size < nb
    {
      hide BinnedOk, Index, ValidPlace, Lo, Width, Key, Log, Bit, Shl, LeftShift, HeadOf, Under, Minus, Narrowed,
        Untaken, Covered, AllFit, TopBit;
      v, rsize := 0, Minus(0, nb);
      StartBin(chunk, treebins, treemap, smallmap, rings, spot, nb);
      var idx := Index(nb);
      t := treebins[idx];
      tq := Apex(idx);
      var rst := 0;
      ghost var rq := tq;
      if t != 0 {
        var sizebits := Shl(nb, LeftShift(idx));
        while true
          invariant Candidate(chunk, spot, nb, v, rsize) && rsize > 0 && (v != 0 ==> Bin(spot[v]) == idx)
          invariant Walk(chunk, rings, spot, tq, nb, t, sizebits)
          invariant Untaken(rings, idx, tq, rst, rq) && Narrowed(chunk, spot, idx, nb, rsize, tq, rst, rq)
          decreases Log(tq)
        {
          NodeFields(chunk, treebins, treemap, smallmap, rings, spot, tq);
          TrieSize(chunk, treebins, treemap, smallmap, rings, spot, t);
          var trem := Minus(At(chunk, t).size, nb);
          RemainderLess(At(chunk, t).size, nb, rsize);
          ghost var was := rsize;
          if trem < rsize {
            v := t;
            rsize := trem;
            if rsize == 0 {
              ExactFit(chunk, spot, nb, tq);
              break;
            }
          }
          StillNarrowed(chunk, spot, idx, nb, was, rsize, tq, rst, rq);
          WalkStep(chunk, treebins, treemap, smallmap, rings, spot, tq, nb, t, sizebits, rsize);
          var right := TopBit(sizebits);
          var rt := At(chunk, t).right;
          t := if right then At(chunk, t).right else At(chunk, t).left;
          ghost var rst', rq' := rst, rq;
          if rt != 0 && rt != t {
            rst, rq := rt, Sub(tq, true);
          }
          NarrowStep(chunk, treebins, treemap, smallmap, rings, spot, idx, nb, rsize, tq, rst', rq', right, rst, rq);
          tq := Sub(tq, right);
          if t == 0 {
            BinDone(chunk, treebins, treemap, smallmap, rings, spot, nb, v, rsize, tq, rst, rq);
            t, tq := rst, rq;
            break;
          }
          sizebits := Shl(sizebits, 1);
        }
      }
    }

    /** The search of `tmalloc_large`: a smallest chunk in the tree bins that holds `nb` bytes, or 0. */
    method FindFit(nb: int) returns (v: int, rsize: int)
      requires Binned() && MIN_LARGE <= nb < WORD
      ensures v == 0 ==> NoneFits(chunk, spot, nb)
      ensures v != 0 ==> Best(chunk, spot, nb, v) && rsize == At(chunk, v).size - nb
    {
      hide BinnedOk, Index, HeadOf, Under, Minus, Covered, AllFit, Settled, Log, NextBin, LeftBits, And;
      var t;
      ghost var tq;
      v, rsize, t, tq := SearchBin(nb);
      if t == 0 && v == 0 {
        NextBinStart(chunk, treebins, treemap, smallmap, rings, spot, nb);
        var i := NextBin(Index(nb), treemap);
        if i < NTREEBINS {
          t, tq := treebins[i], Apex(i);
          NodeFields(chunk, treebins, treemap, smallmap, rings, spot, tq);
        } else {
          NoneSettled(chunk, spot, nb);
        }
      }
      v, rsize := FindLeast(nb, v, rsize, t, tq);
      SettledBest(chunk, treebins, treemap, smallmap, rings, spot, nb, v, rsize);
    }

    /** The second loop of `tmalloc_large`: down the leftmost branches of a subtree. */
    method FindLeast(nb: int, v0: int, rsize0: int, t0: int, ghost tq0: Place) returns (v: int, rsize: int)
      requires Binned() && 0 < nb < WORD && Candidate(chunk, spot, nb, v0, rsize0)
      requires t0 == 0 ==> Settled(chunk, spot, nb, rsize0)
      requires t0 != 0 ==> tq0 in rings && !tq0.Small? && t0 == HeadOf(rings, tq0)
      requires t0 != 0 ==> Covered(chunk, spot, nb, rsize0, tq0) && (rsize0 == 0 || AllFit(chunk, spot, nb, tq0))
      ensures Candidate(chunk, spot, nb, v, rsize) && Settled(chunk, spot, nb, rsize)
    {
      hide BinnedOk, HeadOf, Under, Minus, Covered, AllFit, Settled, Log;
      v, rsize := v0, rsize0;
      var t := t0;
      ghost var tq := tq0;
      while t != 0
        invariant Candidate(chunk, spot, nb, v, rsize)
        invariant t == 0 ==> Settled(chunk, spot, nb, rsize)
        invariant t != 0 ==> tq in rings && !tq.Small? && t == HeadOf(rings, tq)
        invariant t != 0 ==> Covered(chunk, spot, nb, rsize, tq) && (rsize == 0 || AllFit(chunk, spot, nb, tq))
        decreases if t == 0 then 0 else 1, Log(tq)
      {
        NodeFields(chunk, treebins, treemap, smallmap, rings, spot, tq);
        TrieSize(chunk, treebins, treemap, smallmap, rings, spot, t);
        var trem := Minus(At(chunk, t).size, nb);
        RemainderLess(At(chunk, t).size, nb, rsize);
        ghost var was := rsize;
        if trem < rsize {
          rsize := trem;
          v := t;
        }
        StillCovered(chunk, spot, nb, was, rsize, tq);
        HeadFits(chunk, spot, nb, tq, t);
        LeftStep(chunk, treebins, treemap, smallmap, rings, spot, nb, rsize, tq);
        t := if At(chunk, t).left != 0 then At(chunk, t).left else At(chunk, t).right;
        tq := LeftmostChild(rings, tq);
      }
    }

    /** The search of `tmalloc_small`. */
    method FindSmallest(nb: int) returns (v: int, rsize: int)
      requires Binned() && 0 < nb < MIN_LARGE && treemap != 0
      ensures Best(chunk, spot, nb, v) && rsize == At(chunk, v).size - nb
      ensures forall y :: InTrie(spot, y) ==> At(chunk, v).size <= At(chunk, y).size
    {
      hide BinnedOk, HeadOf, Under, Minus, Covered, AllFit, Settled, Log, LeastBit;
      FirstBinStart(chunk, treebins, treemap, smallmap, rings, spot, nb);
      var i := Ctz(LeastBit(treemap));
      var t := treebins[i];
      ghost var tq := Apex(i);
      NodeFields(chunk, treebins, treemap, smallmap, rings, spot, tq);
      TrieSize(chunk, treebins, treemap, smallmap, rings, spot, t);
      RemainderLess(At(chunk, t).size, nb, WORD - nb);
      v, rsize := t, Minus(At(chunk, t).size, nb);
      HeadFits(chunk, spot, nb, tq, t);
      LeftStep(chunk, treebins, treemap, smallmap, rings, spot, nb, rsize, tq);
      t := if At(chunk, t).left != 0 then At(chunk, t).left else At(chunk, t).right;
      v, rsize := FindLeast(nb, v, rsize, t, LeftmostChild(rings, tq));
      SettledBest(chunk, treebins, treemap, smallmap, rings, spot, nb, v, rsize);
      AllLarge(chunk, treebins, treemap, smallmap, rings, spot);
    }

    // ----- small bins

    /** `insert_small_chunk` */
    method InsertSmall(x: int, s: int)
      requires Binned() && leastAddr <= x && x !in spot && At(chunk, x).size == s && 0 <= s < MIN_LARGE && s % 8 == 0
      modifies `chunk, `smallmap, `rings, `spot
      ensures Binned() && spot.Keys == old(spot.Keys) + {x} && Relinked(old(chunk), chunk, spot.Keys)
    {
      hide BinnedOk, Members, RingsOk, ChainedOk, SizesOk, NodesOk, Bit, SetBit, Relinked, LinkAfter;
      ghost var sp := spot;
      var i := s / 8;
      var b := SmallBin(i);
      SmallMarked(chunk, treebins, treemap, smallmap, rings, spot, i);
      if !Bit(smallmap, i) {
        PlaceSmallStep(chunk, treebins, treemap, smallmap, rings, spot, i, x);
        smallmap := SetBit(smallmap, i);
        chunk := Alone(chunk, Small(i), x);
        rings, spot := Placed(rings, Small(i), x), spot[x := Small(i)];
      } else {
        SameSize(chunk, treebins, treemap, smallmap, rings, spot, Small(i), x);
        assert OkAddress(At(chunk, b).fd);
        ChainStep(chunk, treebins, treemap, smallmap, rings, spot, Small(i), x);
        chunk := LinkAfter(chunk, b, x);
        rings, spot := Chained(rings, Small(i), x), spot[x := Small(i)];
      }
      assert spot.Keys == sp.Keys + {x};
    }

    /** `unlink_small_chunk`, and `unlink_first_small_chunk` for the first of a bin. */
    method UnlinkSmall(x: int, s: int)
      requires Binned() && x in spot && spot[x].Small? && At(chunk, x).size == s
      modifies `chunk, `smallmap, `rings, `spot
      ensures Binned() && spot.Keys == old(spot.Keys) - {x} && Relinked(old(chunk), chunk, old(spot.Keys))
    {
      hide BinnedOk, Members, RingsOk, ChainedOk, SizesOk, NodesOk, ClearBit, Relinked, Unlinked;
      ghost var q := spot[x];
      ghost var k := RingNode(chunk, treebins, treemap, smallmap, rings, spot, x);
      SmallNode(chunk, treebins, treemap, smallmap, rings, spot, x, k);
      var i := s / 8;
      var f, b := At(chunk, x).fd, At(chunk, x).bk;
      assert x != b && x != f;
      assert f == SmallBin(i) || (OkAddress(f) && At(chunk, f).bk == x);
      if b == f {
        DropSmallStep(chunk, treebins, treemap, smallmap, rings, spot, i, x);
        RelinkedSame(chunk, spot.Keys);
        smallmap := ClearBit(smallmap, i);
        rings, spot := rings - {q}, spot - {x};
      } else {
        assert b == SmallBin(i) || (OkAddress(b) && At(chunk, b).fd == x);
        UnchainStep(chunk, treebins, treemap, smallmap, rings, spot, q, k);
        chunk := Unlinked(chunk, x);
        rings, spot := Unchained(rings, q, k), spot - {x};
      }
    }

    /** `insert_chunk` */
    method InsertChunk(x: int, s: int)
      requires Binned() && leastAddr <= x && x !in spot && At(chunk, x).size == s && 0 <= s < WORD && s % 8 == 0
      modifies `chunk, `treebins, `treemap, `smallmap, `rings, `spot
      ensures Binned() && spot.Keys == old(spot.Keys) + {x} && Relinked(old(chunk), chunk, spot.Keys)
    {
      if s < MIN_LARGE { InsertSmall(x, s); } else { InsertLarge(x, s); }
    }

    /** `unlink_chunk` */
    method UnlinkChunk(x: int, s: int)
      requires Binned() && x in spot && At(chunk, x).size == s
      modifies `chunk, `treebins, `treemap, `smallmap, `rings, `spot
      ensures Binned() && spot.Keys == old(spot.Keys) - {x} && Relinked(old(chunk), chunk, old(spot.Keys))
    {
      hide BinnedOk, Relinked;
      SmallOrLarge(chunk, treebins, treemap, smallmap, rings, spot, x);
      if s < MIN_LARGE { UnlinkSmall(x, s); } else { UnlinkLarge(x); }
    }

    // ----- the segment

    ghost function Held(loose: set<int>): Pool
      reads this
    {
      Pool(top, topsize, dv, dvsize, spot.Keys, loose)
    }

    ghost predicate Holding(loose: set<int>)
      reads this
    {
      Binned() && SegOk(chunk, regs, lo, hi, Held(loose)) && leastAddr <= lo + MIN_REGION && hi <= WORD
    }

    ghost predicate Valid()
      reads this
    {
      Holding({})
    }

    /** Allocates from the free chunk `v`, which nothing holds: all of it, or its first `nb` bytes
        when the rest makes a chunk. */
    method Carve(v: int, nb: int) returns (r: int, rsize: int)
      requires Holding({v}) && v in regs && nb <= regs[v].size && MIN_REGION <= nb && nb % 16 == 0
      modifies `chunk, `regs
      ensures r == 0 ==> Holding({})
      ensures r != 0 ==> Holding({r}) && r == v + nb && r in regs && rsize == regs[r].size && r !in spot
      ensures Carved(old(regs), regs, v, if r == 0 then v + nb + rsize else r)
      ensures rsize == old(regs[v].size) - nb && (r == 0 <==> rsize < MIN_REGION)
      ensures Live(regs) == Live(old(regs))[v := if r == 0 then nb + rsize else nb] && v !in Live(old(regs))
      ensures UserKept(old(chunk), chunk, old(regs), v, v + old(regs[v].size))
    {
      hide SegOk, BinnedOk, Edit, UserKept, Written, HeadsOnly, Cover, Live, SetInuseAndPinuse, SetSizeOfInuse,
        SetSizeOfFree, Carved;
      LooseFree(chunk, regs, lo, hi, Held({v}), v);
      CarveFacts(chunk, regs, lo, hi, Held({v}), v);
      ghost var c := chunk;
      ghost var q := NextOf(regs, v);
      rsize := At(chunk, v).size - nb;
      if rsize < MIN_REGION {
        r := 0;
        WholeStep(chunk, regs, lo, hi, Held({v}), v);
        chunk := SetInuseAndPinuse(chunk, v, rsize + nb);
        UnbinnedHeads(c, chunk, treebins, treemap, smallmap, rings, spot, {v, q});
        assert {v} - {v} == {};
        regs := Edit(regs, v, q, q, Used, Used);
      } else {
        r := v + nb;
        SplitStep(chunk, regs, lo, hi, Held({v}), v, nb);
        chunk := SetSizeOfInuse(chunk, v, nb);
        chunk := SetSizeOfFree(chunk, r, rsize);
        UnbinnedHeads(c, chunk, treebins, treemap, smallmap, rings, spot, {v, r, q});
        assert {v} - {v} + {r} == {r};
        regs := Edit(regs, v, r, q, Used, Free);
        EditSecond(old(regs), v, r, q);
      }
    }

    /** `unlink_chunk` within the segment: the chunk `v` is taken out of its bin. */
    method Unbin(v: int, ghost loose: set<int>)
      requires Holding(loose) && v in spot
      modifies `chunk, `treebins, `treemap, `smallmap, `rings, `spot
      ensures Holding(loose + {v}) && v in regs && UserKept(old(chunk), chunk, regs, 0, 0)
    {
      hide SegOk, BinnedOk, Cover, UserKept, Relinked;
      ghost var h := Held(loose);
      HeldFree(chunk, regs, lo, hi, h, v);
      UnlinkChunk(v, At(chunk, v).size);
      UnbinSeg(old(chunk), chunk, regs, lo, hi, h, v);
    }

    /** `insert_chunk` within the segment. */
    method Rebin(v: int, s: int, ghost loose: set<int>)
      requires Holding(loose) && v in loose && v in regs && s == regs[v].size
      modifies `chunk, `treebins, `treemap, `smallmap, `rings, `spot
      ensures Holding(loose - {v}) && UserKept(old(chunk), chunk, regs, 0, 0)
    {
      hide SegOk, BinnedOk, Cover, UserKept, Relinked;
      ghost var h := Held(loose);
      LooseFree(chunk, regs, lo, hi, h, v);
      CarveFacts(chunk, regs, lo, hi, h, v);
      InsertChunk(v, s);
      RebinSeg(old(chunk), chunk, regs, lo, hi, h, v);
    }

    /** `replace_dv` */
    method ReplaceDv(r: int, rsize: int)
      requires Holding({r}) && r in regs && rsize == regs[r].size && dvsize < MIN_LARGE
      modifies `chunk, `smallmap, `rings, `spot, `dv, `dvsize
      ensures Valid() && UserKept(old(chunk), chunk, regs, 0, 0) && dv == r && dvsize == rsize
    {
      hide SegOk, BinnedOk, Cover, UserKept, Relinked;
      ghost var h := Held({r});
      LooseFree(chunk, regs, lo, hi, h, r);
      CarveFacts(chunk, regs, lo, hi, h, r);
      NoChange(chunk, regs);
      if dvsize != 0 {
        DropDvSeg(chunk, regs, lo, hi, h);
        h := h.(dv := 0, dvsize := 0, loose := h.loose + {h.dv});
        LooseFree(chunk, regs, lo, hi, h, dv);
        CarveFacts(chunk, regs, lo, hi, h, dv);
        InsertSmall(dv, dvsize);
        RebinSeg(old(chunk), chunk, regs, lo, hi, h, dv);
        h := h.(binned := h.binned + {dv}, loose := h.loose - {dv});
      }
      SetDvSeg(chunk, regs, lo, hi, h, r);
      h := h.(dv := r, dvsize := rsize, loose := h.loose - {r});
      dvsize := rsize;
      dv := r;
      assert Held({}) == h;
    }

    // ----- malloc

    /** `tmalloc_large`: allocates from a best fitting chunk of the tree bins, unless `dv` fits as well. */
    method TmallocLarge(nb: int) returns (p: int)
      requires Valid() && MIN_LARGE <= nb < WORD && nb % 16 == 0
      modifies `chunk, `treebins, `treemap, `smallmap, `rings, `spot, `regs
      ensures Valid()
      ensures p == 0 ==> chunk == old(chunk) && regs == old(regs) && spot == old(spot)
      ensures p == 0 ==> forall y :: InTrie(spot, y) ==> At(chunk, y).size < nb || nb <= dvsize <= At(chunk, y).size
      ensures p != 0 ==> Allocated(old(chunk), chunk, old(regs), regs, nb, p)
      ensures p != 0 ==> Best(old(chunk), old(spot), nb, p) && (dvsize < nb || At(old(chunk), p).size < dvsize)
    {
      hide SegOk, BinnedOk, Cover, UserKept, Relinked, Carved, Allocated, Live, Minus;
      var v, rsize := FindFit(nb);
      DvRange(chunk, regs, lo, hi, Held({}));
      if v != 0 { TrieSize(chunk, treebins, treemap, smallmap, rings, spot, v); }
      p := 0;
      FitsBetter(dvsize, nb, rsize);
      if v != 0 && rsize < Minus(dvsize, nb) {
        ghost var c, rg, h := chunk, regs, Held({});
        HeldFree(chunk, regs, lo, hi, h, v);
        CarveFacts(chunk, regs, lo, hi, h, v);
        assert OkAddress(v) && v < v + nb;
        Unbin(v, {});
        assert {} + {v} == {v};
        ghost var c1, h1 := chunk, Held({v});
        var r, rs := Carve(v, nb);
        ghost var c2 := chunk;
        NoChange(chunk, regs);
        if r != 0 {
          Rebin(r, rs, {r});
          assert {r} - {r} == {};
        }
        AllocatedFrom(c, c1, c2, chunk, rg, regs, lo, hi, h1, v, if r == 0 then v + nb + rs else r, nb);
        p := v;
      }
    }

    /** `tmalloc_small`: allocates from a smallest chunk of the tree bins, and makes the rest `dv`. */
    method TmallocSmall(nb: int) returns (p: int)
      requires Valid() && MIN_REGION <= nb < MIN_LARGE && nb % 16 == 0 && treemap != 0 && dvsize < nb
      modifies `chunk, `treebins, `treemap, `smallmap, `rings, `spot, `regs, `dv, `dvsize
      ensures Valid() && p != 0 && Allocated(old(chunk), chunk, old(regs), regs, nb, p)
      ensures InTrie(old(spot), p) && forall y :: InTrie(old(spot), y) ==>
        At(old(chunk), p).size <= At(old(chunk), y).size
      ensures if At(old(chunk), p).size < nb + MIN_REGION then dv == old(dv) && dvsize == old(dvsize)
        else dv == p + nb && dvsize == At(old(chunk), p).size - nb
    {
      hide SegOk, BinnedOk, Cover, UserKept, Relinked, Carved, Allocated, Live, Minus;
      var v, rsize := FindSmallest(nb);
      ghost var c, rg, h := chunk, regs, Held({});
      HeldFree(chunk, regs, lo, hi, h, v);
      CarveFacts(chunk, regs, lo, hi, h, v);
      assert OkAddress(v) && v < v + nb;
      Unbin(v, {});
      assert {} + {v} == {v};
      ghost var c1, h1 := chunk, Held({v});
      var r, rs := Carve(v, nb);
      ghost var c2 := chunk;
      NoChange(chunk, regs);
      if r != 0 {
        ReplaceDv(r, rs);
      }
      AllocatedFrom(c, c1, c2, chunk, rg, regs, lo, hi, h1, v, if r == 0 then v + nb + rs else r, nb);
      p := v;
    }

    /** Allocates from `dv`: splits it, or uses it up. */
    method UseDv(nb: int) returns (p: int)
      requires Valid() && MIN_REGION <= nb <= dvsize && nb % 16 == 0
      modifies `chunk, `regs, `dv, `dvsize
      ensures Valid() && p == old(dv) && p != 0 && Allocated(old(chunk), chunk, old(regs), regs, nb, p)
      ensures if old(dvsize) < nb + MIN_REGION then dv == 0 && dvsize == 0
        else dv == p + nb && dvsize == old(dvsize) - nb
    {
      hide SegOk, BinnedOk, Cover, UserKept, Carved, Allocated, Live, Edit, HeadsOnly, SetInuseAndPinuse,
        SetSizeOfInuse, SetSizeOfFree;
      ghost var c, rg, h := chunk, regs, Held({});
      DropDvSeg(chunk, regs, lo, hi, h);
      ghost var h1 := h.(dv := 0, dvsize := 0, loose := h.loose + {h.dv});
      CarveFacts(chunk, regs, lo, hi, h1, dv);
      LooseFree(chunk, regs, lo, hi, h1, dv);
      ghost var q := NextOf(regs, dv);
      var rsize := dvsize - nb;
      p := dv;
      if rsize >= MIN_REGION {
        SplitStep(chunk, regs, lo, hi, h1, p, nb);
        var r := p + nb;
        dv := r;
        dvsize := rsize;
        chunk := SetSizeOfInuse(chunk, p, nb);
        chunk := SetSizeOfFree(chunk, r, rsize);
        UnbinnedHeads(c, chunk, treebins, treemap, smallmap, rings, spot, {p, r, q});
        regs := Edit(regs, p, r, q, Used, Free);
        EditSecond(rg, p, r, q);
        SetDvSeg(chunk, regs, lo, hi, h1.(loose := h1.loose - {p} + {r}), r);
        assert Held({}) == h1.(loose := h1.loose - {p} + {r}).(dv := r, dvsize := rsize,
            loose := h1.loose - {p} + {r} - {r});
      } else {
        WholeStep(chunk, regs, lo, hi, h1, p);
        var dvs := dvsize;
        dvsize := 0;
        dv := 0;
        chunk := SetInuseAndPinuse(chunk, p, dvs);
        UnbinnedHeads(c, chunk, treebins, treemap, smallmap, rings, spot, {p, q});
        regs := Edit(regs, p, q, q, Used, Used);
        assert Held({}) == h1.(loose := h1.loose - {p});
      }
      NoChange(c, rg);
      NoChange(chunk, regs);
      AllocatedFrom(c, c, chunk, chunk, rg, regs, lo, hi, h1, p, if rsize < MIN_REGION then q else p + nb, nb);
    }

    /** Allocates from the lower end of `top`. */
    method UseTop(nb: int) returns (p: int)
      requires Valid() && MIN_REGION <= nb < topsize && nb % 16 == 0
      modifies `chunk, `regs, `top, `topsize
      ensures Valid() && p == old(top) && p != 0 && Allocated(old(chunk), chunk, old(regs), regs, nb, p)
      ensures top == p + nb && topsize == old(topsize) - nb
    {
      hide SegOk, BinnedOk, Cover, UserKept, Carved, Allocated, Live, Edit, HeadsOnly, SetSizeOfInuse, SetHead;
      ghost var c, rg, h := chunk, regs, Held({});
      HeldFree(chunk, regs, lo, hi, h, top);
      CarveFacts(chunk, regs, lo, hi, h, top);
      TopStep(chunk, regs, lo, hi, h, nb);
      ghost var q := NextOf(regs, top);
      topsize := topsize - nb;
      var rsize := topsize;
      p := top;
      var r := p + nb;
      top := r;
      chunk := SetHead(chunk, r, rsize, false, true);
      chunk := SetSizeOfInuse(chunk, p, nb);
      UnbinnedHeads(c, chunk, treebins, treemap, smallmap, rings, spot, {p, r, q});
      regs := Edit(regs, p, r, q, Used, Free);
      NoChange(c, rg);
      NoChange(chunk, regs);
      AllocatedFrom(c, c, chunk, chunk, rg, regs, lo, hi, h, p, r, nb);
    }

    /** Takes the first chunk of the small bin `i`, and allocates `nb` bytes of it. */
    method UseSmallBin(i: int, nb: int) returns (p: int)
      requires Valid() && 0 <= i < NSMALLBINS && Bit(smallmap, i) && MIN_REGION <= nb <= 8 * i && nb % 16 == 0
      requires 8 * i < nb + MIN_REGION || dvsize < nb
      modifies `chunk, `treebins, `treemap, `smallmap, `rings, `spot, `regs, `dv, `dvsize
      ensures Valid() && p != 0 && Allocated(old(chunk), chunk, old(regs), regs, nb, p) && Live(regs)[p] <= 8 * i
      ensures p in old(spot) && At(old(chunk), p).size == 8 * i
      ensures if 8 * i < nb + MIN_REGION then dv == old(dv) && dvsize == old(dvsize)
        else dv == p + nb && dvsize == 8 * i - nb
    {
      hide SegOk, BinnedOk, Cover, UserKept, Relinked, Carved, Allocated, Live, Bit;
      SmallMarked(chunk, treebins, treemap, smallmap, rings, spot, i);
      var b := SmallBin(i);
      p := At(chunk, b).fd;
      SlotSize(chunk, treebins, treemap, smallmap, rings, spot, p);
      ghost var c, rg, h := chunk, regs, Held({});
      HeldFree(chunk, regs, lo, hi, h, p);
      CarveFacts(chunk, regs, lo, hi, h, p);
      assert At(chunk, p).size == 8 * i;
      Unbin(p, {});
      assert {} + {p} == {p};
      ghost var c1, h1 := chunk, Held({p});
      var r, rs := Carve(p, nb);
      ghost var c2 := chunk;
      NoChange(chunk, regs);
      if r != 0 {
        ReplaceDv(r, rs);
      }
      AllocatedFrom(c, c1, c2, chunk, rg, regs, lo, hi, h1, p, if r == 0 then p + nb + rs else r, nb);
    }

    /** The part of `dlmalloc` for small requests that does not look at `dv` or `top`. */
    method MallocSmall(nb: int) returns (p: int)
      requires Valid() && MIN_REGION <= nb < MIN_LARGE && nb % 16 == 0
      modifies `chunk, `treebins, `treemap, `smallmap, `rings, `spot, `regs, `dv, `dvsize
      ensures Valid()
      ensures p == 0 ==>
        chunk == old(chunk) && regs == old(regs) && spot == old(spot) && dv == old(dv) && dvsize == old(dvsize)
      ensures p == 0 ==> (nb <= dvsize || NoneBinned(chunk, spot, nb)) && NonePreferred(chunk, spot, nb, dvsize)
      ensures p != 0 ==> Allocated(old(chunk), chunk, old(regs), regs, nb, p)
      ensures p != 0 ==> FromBins(old(chunk), old(spot), nb, old(dvsize), p)
    {
      hide SegOk, BinnedOk, Cover, UserKept, Relinked, Carved, Allocated, Live, Bit, NextBin, NoneBinned, FromBins,
        NonePreferred, Shr;
      p := 0;
      var idx := nb / 8;
      var smallbits := Shr(smallmap, idx);
      LowBits(smallmap, idx);
      if smallbits % 4 != 0 {
        idx := idx + (1 - smallbits % 2);
        SlotRange(chunk, treebins, treemap, smallmap, rings, spot, idx);
        EvenSlot(chunk, treebins, treemap, smallmap, rings, spot, regs, lo, hi, Held({}), idx);
        Steps16(nb, 8 * idx);
        p := UseSmallBin(idx, 8 * idx);
        SmallServed(old(chunk), old(treebins), old(treemap), old(smallmap), old(rings), old(spot), nb,
          old(dvsize), idx, p);
      } else if nb > dvsize {
        if smallbits != 0 {
          SlotRange(chunk, treebins, treemap, smallmap, rings, spot, 0);
          NextSmall(smallmap, idx);
          var i := NextBin(idx, smallbits * Pow2(idx));
          p := UseSmallBin(i, nb);
          SmallServed(old(chunk), old(treebins), old(treemap), old(smallmap), old(rings), old(spot), nb,
            old(dvsize), i, p);
        } else if treemap != 0 {
          p := TmallocSmall(nb);
          TreeServed(old(chunk), old(treebins), old(treemap), old(smallmap), old(rings), old(spot), nb, old(dvsize), p);
        } else {
          NothingBinned(chunk, treebins, treemap, smallmap, rings, spot, nb);
          NoneExact(chunk, treebins, treemap, smallmap, rings, spot, nb, dvsize);
        }
      } else {
        NoneExact(chunk, treebins, treemap, smallmap, rings, spot, nb, dvsize);
      }
    }

    /** `dlmalloc`, short of asking the system for more memory: it gives up, with nothing changed,
        only when no free chunk holds the request. */
    method Dlmalloc(bytes: int) returns (mem: int)
      requires Valid() && 0 <= bytes < WORD
      modifies `chunk, `treebins, `treemap, `smallmap, `rings, `spot, `regs, `dv, `dvsize, `top, `topsize
      ensures Valid()
      ensures mem == 0 ==> chunk == old(chunk) && regs == old(regs) && top == old(top)
      ensures if bytes < MAX_REQUEST then mem == 0 ==> NothingHolds(regs, top, bytes) else mem == 0
      ensures mem != 0 ==> mem % 16 == 0 && Allocated(old(chunk), chunk, old(regs), regs, RequestSize(bytes), mem - 8)
      ensures mem != 0 ==> mem - 8 in Live(regs) && JustHolds(Live(regs)[mem - 8], bytes)
      ensures mem != 0 ==>
        Served(old(chunk), old(spot), RequestSize(bytes), old(dv), old(dvsize), old(top), mem - 8)
    {
      hide SegOk, BinnedOk, Cover, UserKept, Allocated, Live, NothingFits, NothingHolds, Served, FromBins,
        NonePreferred, JustHolds, RequestSize;
      RequestRange(bytes);
      var nb := RequestSize(bytes);
      var p := 0;
      if bytes <= MAX_SMALL_REQUEST {
        p := MallocSmall(nb);
      } else if bytes < MAX_REQUEST {
        p := MallocLarge(nb);
      }
      DvRange(chunk, regs, lo, hi, Held({}));
      if p != 0 {
        ServedByBins(old(chunk), old(spot), nb, old(dv), old(dvsize), old(top), p);
      } else if nb <= dvsize {
        p := UseDv(nb);
        ServedOtherwise(old(chunk), old(spot), nb, old(dv), old(dvsize), old(top), p);
      } else if nb < topsize {
        p := UseTop(nb);
        ServedOtherwise(old(chunk), old(spot), nb, old(dv), old(dvsize), old(top), p);
      } else {
        if bytes < MAX_REQUEST {
          NoneHeld(chunk, regs, lo, hi, Held({}), nb);
          NothingFitsBytes(chunk, regs, lo, hi, Held({}), bytes);
        }
        return 0;
      }
      AllocatedAt(old(chunk), chunk, old(regs), regs, lo, hi, Held({}), nb, p);
      JustAllocated(old(chunk), chunk, old(regs), regs, lo, hi, Held({}), bytes, p);
      mem := p + 8;
    }

    /** The part of `dlmalloc` for large requests that does not look at `dv` or `top`. */
    method MallocLarge(nb: int) returns (p: int)
      requires Valid() && MIN_LARGE <= nb < WORD && nb % 16 == 0
      modifies `chunk, `treebins, `treemap, `smallmap, `rings, `spot, `regs
      ensures Valid()
      ensures p == 0 ==> chunk == old(chunk) && regs == old(regs) && spot == old(spot)
      ensures p == 0 ==> (nb <= dvsize || NoneBinned(chunk, spot, nb)) && NonePreferred(chunk, spot, nb, dvsize)
      ensures p != 0 ==> Allocated(old(chunk), chunk, old(regs), regs, nb, p)
      ensures p != 0 ==> FromBins(old(chunk), old(spot), nb, dvsize, p)
    {
      hide SegOk, BinnedOk, Cover, UserKept, Allocated, Live, FromBins, NonePreferred, NoneBinned;
      p := 0;
      if treemap != 0 {
        p := TmallocLarge(nb);
      } else {
        NothingInTries(chunk, treebins, treemap, smallmap, rings, spot);
      }
      LargeServed(old(chunk), old(treebins), old(treemap), old(smallmap), old(rings), old(spot), nb, dvsize, p);
      if p == 0 { LargeNotBinned(chunk, treebins, treemap, smallmap, rings, spot, nb, dvsize); }
    }

    // ----- free

    /** Writes the head and foot of the free stretch around `p`, whose neighbours nothing holds. */
    method Merge(p: int, pp: int, ps: int, next: int, ghost h: Pool) returns (ghost h': Pool)
      requires Binned() && SegOk(chunk, regs, lo, hi, h) && h.binned == spot.Keys && leastAddr <= lo + MIN_REGION
      requires p in regs && regs[p].kind.Used? && pp == FreeStart(regs, p) && next == NextOf(regs, p) && next != h.top
      requires ps == FreeEnd(regs, p) - pp && Neighbours(regs, p) <= h.loose
      modifies `chunk, `regs
      ensures Binned() && SegOk(chunk, regs, lo, hi, h') && h' == h.(loose := h.loose - Neighbours(old(regs), p) + {pp})
      ensures pp in regs && regs[pp].size == ps && Freed(old(chunk), chunk, old(regs), regs, p)
    {
      hide SegOk, BinnedOk, Edit, UserKept, HeadsOnly, Freed, Neighbours, FreeStart, FreeEnd, SetFreeWithPinuse,
        SetSizeOfFree;
      FreeReads(chunk, regs, lo, hi, h, p);
      ghost var c, q := chunk, FreeEnd(regs, p);
      if !At(chunk, next).cinuse {
        chunk := SetSizeOfFree(chunk, pp, ps);
      } else {
        chunk := SetFreeWithPinuse(chunk, pp, ps, next);
      }
      FreeSeg(c, chunk, regs, lo, hi, h, p);
      assert q > 0;
      UnbinnedHeads(c, chunk, treebins, treemap, smallmap, rings, spot, {pp, q});
      h' := h.(loose := h.loose - Neighbours(regs, p) + {pp});
      EditFirst(regs, pp, q);
      regs := Edit(regs, pp, q, q, Free, Free);
    }

    /** The stretch around `p` starts at `dv` or ends with it, and becomes the new `dv`. */
    method DisposeIntoDv(p: int, pp: int, ps: int, next: int, ghost loose: set<int>)
      requires Holding(loose) && p in regs && regs[p].kind.Used? && pp == FreeStart(regs, p) &&
        next == NextOf(regs, p) && next != top
      requires ps == FreeEnd(regs, p) - pp && dv in Neighbours(regs, p) && loose + {dv} == Neighbours(regs, p) &&
        dv != 0
      modifies `chunk, `regs, `dv, `dvsize
      ensures Valid() && Freed(old(chunk), chunk, old(regs), regs, p) && dv == pp
    {
      hide SegOk, BinnedOk, Edit, UserKept, HeadsOnly, Freed, Neighbours, FreeStart, FreeEnd;
      ghost var h := Held(loose);
      DvFacts(chunk, regs, lo, hi, h);
      DropDvSeg(chunk, regs, lo, hi, h);
      h := h.(dv := 0, dvsize := 0, loose := loose + {dv});
      h := Merge(p, pp, ps, next, h);
      assert h.loose == {pp};
      SetDvSeg(chunk, regs, lo, hi, h, pp);
      dvsize := ps;
      dv := pp;
      assert {pp} - {pp} == {};
      assert Held({}) == h.(dv := pp, dvsize := ps, loose := {});
    }

    /** The stretch around `p` ends with `top`. */
    method DisposeIntoTop(p: int, pp: int, ps: int, ghost loose: set<int>)
      requires Holding(loose) && p in regs && regs[p].kind.Used? && pp == FreeStart(regs, p) &&
        NextOf(regs, p) == top && ps == top - pp
      requires loose + {top} + (if pp == dv then {pp} else {}) == Neighbours(regs, p)
      modifies `chunk, `regs, `dv, `dvsize, `top, `topsize
      ensures Valid() && Freed(old(chunk), chunk, old(regs), regs, p)
      ensures top == pp && dv == if pp == old(dv) then 0 else old(dv)
    {
      hide SegOk, BinnedOk, Edit, UserKept, HeadsOnly, Freed, Neighbours, FreeStart, FreeEnd, SetHead;
      ghost var h, c := Held(loose), chunk;
      FreeReads(chunk, regs, lo, hi, h, p);
      DvFacts(chunk, regs, lo, hi, h);
      TopFacts(chunk, regs, lo, hi, h);
      topsize := topsize + ps;
      top := pp;
      chunk := SetHead(chunk, pp, topsize, false, true);
      if pp == dv {
        DropDvSeg(c, regs, lo, hi, h);
        h := h.(dv := 0, dvsize := 0, loose := loose + {pp});
        dv, dvsize := 0, 0;
      }
      FreeTopSeg(c, chunk, regs, lo, hi, h, p);
      ghost var q := FreeEnd(regs, p);
      UnbinnedHeads(c, chunk, treebins, treemap, smallmap, rings, spot, {pp, q});
      assert h.loose - Neighbours(regs, p) == {};
      assert Held({}) == h.(top := pp, topsize := q - pp, loose := {});
      regs := Edit(regs, pp, q, q, Free, Free);
    }

    /** The forward part of `dispose_chunk`. */
    method DisposeForward(p: int, pp: int, psize: int, next: int, ghost loose: set<int>)
      requires Holding(loose) && p in regs && regs[p].kind.Used? && pp == FreeStart(regs, p) &&
        next == NextOf(regs, p) && psize == next - pp
      requires loose == if pp == p || pp == dv then {} else {pp}
      requires pp == dv ==> !At(chunk, next).cinuse
      modifies `chunk, `treebins, `treemap, `smallmap, `rings, `spot, `regs, `dv, `dvsize, `top, `topsize
      ensures Valid() && Freed(old(chunk), chunk, old(regs), regs, p)
      ensures GivenTo(old(regs), p, old(top), old(dv), top, dv)
    {
      hide SegOk, BinnedOk, Edit, UserKept, HeadsOnly, Freed, Neighbours, FreeStart, FreeEnd;
      ghost var h, c0, rg := Held(loose), chunk, regs;
      FreeReads(chunk, regs, lo, hi, h, p);
      TopFacts(chunk, regs, lo, hi, h);
      DvFacts(chunk, regs, lo, hi, h);
      NoChange(chunk, regs);
      ghost var l2 := loose;
      var ps := psize;
      if !At(chunk, next).cinuse {
        if next == top {
          DisposeIntoTop(p, pp, ps, loose);
          return;
        } else if next == dv {
          DisposeIntoDv(p, pp, ps + dvsize, next, loose);
          return;
        } else {
          var nsize := At(chunk, next).size;
          ps := ps + nsize;
          NeighbourBinned(chunk, regs, lo, hi, h, next);
          Unbin(next, loose);
          l2 := loose + {next};
          if pp == dv {
            ghost var c1 := chunk;
            DisposeIntoDv(p, pp, ps, next, l2);
            NoChange(chunk, regs);
            FreedFrame(c0, c1, chunk, chunk, rg, regs, p);
            return;
          }
        }
      }
      ghost var c1 := chunk;
      ghost var h1 := Merge(p, pp, ps, next, Held(l2));
      ghost var c2 := chunk;
      assert h1.loose == {pp};
      Rebin(pp, ps, {pp});
      assert {pp} - {pp} == {};
      FreedFrame(c0, c1, c2, chunk, rg, regs, p);
    }

    /** `dispose_chunk`: consolidates a chunk with its free neighbours, and gives the result to `top`,
        to `dv` if that is one of them, or to a bin. */
    method DisposeChunk(p: int, psize: int)
      requires Valid() && p in regs && regs[p].kind.Used? && psize == regs[p].size
      modifies `chunk, `treebins, `treemap, `smallmap, `rings, `spot, `regs, `dv, `dvsize, `top, `topsize
      ensures Valid() && Freed(old(chunk), chunk, old(regs), regs, p)
      ensures GivenTo(old(regs), p, old(top), old(dv), top, dv)
    {
      hide SegOk, BinnedOk, Edit, UserKept, HeadsOnly, Freed, Neighbours, FreeStart, FreeEnd, Live;
      ghost var h := Held({});
      FreeReads(chunk, regs, lo, hi, h, p);
      TopFacts(chunk, regs, lo, hi, h);
      DvFacts(chunk, regs, lo, hi, h);
      NoChange(chunk, regs);
      var next := p + psize;
      var pp, ps := p, psize;
      if !At(chunk, p).pinuse {
        var prevsize := At(chunk, p).prevFoot;
        pp := p - prevsize;
        ps := psize + prevsize;
        assert OkAddress(pp);
        if pp != dv {
          NeighbourBinned(chunk, regs, lo, hi, h, pp);
          Unbin(pp, {});
          assert {} + {pp} == {pp};
        } else if At(chunk, next).cinuse && At(chunk, next).pinuse {
          assert {} + {pp} == {pp} + {};
          DisposeIntoDv(p, pp, ps, next, {});
          return;
        }
      }
      ghost var loose := if pp == p || pp == dv then {} else {pp};
      assert OkAddress(next);
      ghost var c1 := chunk;
      DisposeForward(p, pp, ps, next, loose);
      NoChange(chunk, regs);
      FreedFrame(old(chunk), c1, chunk, chunk, old(regs), regs, p);
    }

    /** `dlfree` */
    method Dlfree(mem: int)
      requires Valid() && (mem != 0 ==> mem - 8 in Live(regs))
      modifies `chunk, `treebins, `treemap, `smallmap, `rings, `spot, `regs, `dv, `dvsize, `top, `topsize
      ensures Valid()
      ensures mem == 0 ==> chunk == old(chunk) && regs == old(regs)
      ensures mem != 0 ==> Freed(old(chunk), chunk, old(regs), regs, mem - 8)
      ensures if mem == 0 then top == old(top) && dv == old(dv)
        else mem - 8 in old(regs) && GivenTo(old(regs), mem - 8, old(top), old(dv), top, dv)
    {
      hide SegOk, BinnedOk, UserKept, Freed;
      if mem != 0 {
        var p := mem - 8;
        FreeReads(chunk, regs, lo, hi, Held({}), p);
        assert OkAddress(p) && At(chunk, p).cinuse;
        assert p < p + At(chunk, p).size && At(chunk, p + At(chunk, p).size).pinuse;
        DisposeChunk(p, At(chunk, p).size);
      }
    }

    // ----- try_realloc_chunk

    /** The remainder `[x, q)` of a resized chunk is made a chunk of its own and disposed of. */
    method SplitOff(p: int, nb: int, q: int, ghost loose: set<int>)
      requires Holding(loose) && p in regs && regs[p].kind.Used? && MIN_REGION <= nb && nb % 16 == 0 &&
        nb + MIN_REGION <= q - p
      requires if loose == {} then q == NextOf(regs, p)
               else loose == {NextOf(regs, p)} && IsFree(regs, NextOf(regs, p)) && q == NextOf(regs, NextOf(regs, p))
      modifies `chunk, `treebins, `treemap, `smallmap, `rings, `spot, `regs, `dv, `dvsize, `top, `topsize
      ensures Valid() && Resized(old(chunk), chunk, old(regs), p) && Live(regs) == Live(old(regs))[p := nb]
    {
      hide SegOk, BinnedOk, Edit, UserKept, HeadsOnly, Freed, Live, Resized, Cover, GoodEdit, SetInuse;
      ghost var c, rg, h := chunk, regs, Held(loose);
      var r, rsize := p + nb, q - p - nb;
      ResizeGood(chunk, regs, lo, hi, h, p, nb, q, Used);
      SplitOffCover(chunk, regs, lo, hi, h, p, r, q);
      ResizeSeg(chunk, regs, lo, hi, h, p, r, q, Used, h.(loose := {}));
      CutQuiet(chunk, p, r, q, regs[q].kind.End?);
      chunk := SetInuse(chunk, p, nb);
      chunk := SetInuse(chunk, r, rsize);
      QuietHeads(c, chunk, treebins, treemap, smallmap, rings, spot, {p, r, q});
      regs := Edit(regs, p, r, q, Used, Used);
      EditUsed(rg, p, r, q);
      ghost var c1, rg1 := chunk, regs;
      DisposeChunk(r, rsize);
      ResizedThenFreed(c, c1, chunk, rg, rg1, regs, lo, hi, h, p, r, q);
    }

    /** The chunk at `p` takes over the lower end of `top`. */
    method ExtendIntoTop(p: int, nb: int)
      requires Valid() && p in regs && regs[p].kind.Used? && NextOf(regs, p) == top &&
        regs[p].size < nb < regs[p].size + topsize && nb % 16 == 0
      modifies `chunk, `regs, `top, `topsize
      ensures Valid() && Resized(old(chunk), chunk, old(regs), p) && Live(regs) == Live(old(regs))[p := nb]
    {
      hide SegOk, BinnedOk, Edit, UserKept, HeadsOnly, Live, Resized, Cover, GoodEdit, SetInuse, SetHead;
      ghost var c, h := chunk, Held({});
      TopFacts(chunk, regs, lo, hi, h);
      FreeReads(chunk, regs, lo, hi, h, p);
      var newsize := At(chunk, p).size + topsize;
      var newtopsize := newsize - nb;
      var newtop := p + nb;
      ghost var q := p + newsize;
      ExtendRoom(chunk, regs, lo, hi, h, p, nb);
      ResizeGood(chunk, regs, lo, hi, h, p, nb, q, Free);
      ResizeTopSeg(chunk, regs, lo, hi, h, p, newtop, q);
      chunk := SetInuse(chunk, p, nb);
      chunk := SetHead(chunk, newtop, newtopsize, false, true);
      UnbinnedHeads(c, chunk, treebins, treemap, smallmap, rings, spot, {p, newtop, q});
      top := newtop;
      topsize := newtopsize;
      regs := Edit(regs, p, newtop, q, Used, Free);
    }

    /** The chunk at `p` takes over the lower end of `dv`. */
    method ShareDv(p: int, nb: int, dsize: int)
      requires Valid() && p in regs && regs[p].kind.Used? && NextOf(regs, p) == dv && nb % 16 == 0 && MIN_REGION <= nb
      requires regs[p].size < nb && dsize == regs[p].size + dvsize - nb && MIN_REGION <= dsize
      modifies `chunk, `regs, `dv, `dvsize
      ensures Valid() && Resized(old(chunk), chunk, old(regs), p) && Live(regs) == Live(old(regs))[p := nb]
    {
      hide SegOk, BinnedOk, Edit, UserKept, HeadsOnly, Live, Resized, Cover, GoodEdit, SetInuse, SetPinuse,
        SetSizeOfFree;
      ghost var c, h, rg, q := chunk, Held({}), regs, dv + dvsize;
      DvFacts(chunk, regs, lo, hi, h);
      DropDvSeg(chunk, regs, lo, hi, h);
      h := h.(dv := 0, dvsize := 0, loose := {dv});
      assert {} + {dv} == {dv};
      var r := p + nb;
      var n := r + dsize;
      ResizeGood(chunk, regs, lo, hi, h, p, nb, q, Free);
      ResizeLooseSeg(chunk, regs, lo, hi, h, p, r, q, Free);
      chunk := SetInuse(chunk, p, nb);
      chunk := SetSizeOfFree(chunk, r, dsize);
      chunk := SetPinuse(chunk, n, false);
      UnbinnedHeads(c, chunk, treebins, treemap, smallmap, rings, spot, {p, r, q});
      dvsize := dsize;
      dv := r;
      regs := Edit(regs, p, r, q, Used, Free);
      EditSecond(rg, p, r, q);
      SetDvSeg(chunk, regs, lo, hi, h.(loose := {r}), r);
      assert {r} - {r} == {};
    }

    /** The chunk at `p` takes over all of `dv`. */
    method TakeDv(p: int, newsize: int)
      requires Valid() && p in regs && regs[p].kind.Used? && NextOf(regs, p) == dv && dv != 0
      requires newsize == regs[p].size + dvsize
      modifies `chunk, `regs, `dv, `dvsize
      ensures Valid() && Resized(old(chunk), chunk, old(regs), p) && Live(regs) == Live(old(regs))[p := newsize]
    {
      hide SegOk, BinnedOk, Edit, UserKept, HeadsOnly, Live, Resized, Cover, GoodEdit, SetInuse;
      ghost var c, h, q := chunk, Held({}), dv + dvsize;
      DvFacts(chunk, regs, lo, hi, h);
      DropDvSeg(chunk, regs, lo, hi, h);
      h := h.(dv := 0, dvsize := 0, loose := {dv});
      assert {} + {dv} == {dv};
      GrowGood(chunk, regs, lo, hi, h, p, q);
      ResizeLooseSeg(chunk, regs, lo, hi, h, p, q, q, Used);
      chunk := SetInuse(chunk, p, newsize);
      UnbinnedHeads(c, chunk, treebins, treemap, smallmap, rings, spot, {p, q, q});
      dvsize := 0;
      dv := 0;
      regs := Edit(regs, p, q, q, Used, Used);
    }

    /** The chunk at `p` takes over the lower end of `dv`, or all of it. */
    method ExtendIntoDv(p: int, nb: int)
      requires Valid() && p in regs && regs[p].kind.Used? && NextOf(regs, p) == dv && nb % 16 == 0 && MIN_REGION <= nb
      requires regs[p].size < nb <= regs[p].size + dvsize
      modifies `chunk, `regs, `dv, `dvsize
      ensures Valid() && Resized(old(chunk), chunk, old(regs), p) && p in Live(regs)
      ensures nb <= Live(regs)[p] < nb + MIN_REGION && Live(regs) == Live(old(regs))[p := Live(regs)[p]]
    {
      hide SegOk, BinnedOk, UserKept, Live, Resized, Cover;
      FreeReads(chunk, regs, lo, hi, Held({}), p);
      DvFacts(chunk, regs, lo, hi, Held({}));
      var newsize := At(chunk, p).size + dvsize;
      var dsize := newsize - nb;
      if dsize >= MIN_REGION {
        ShareDv(p, nb, dsize);
        LiveHas(old(regs), regs, p, nb);
      } else {
        TakeDv(p, newsize);
        LiveHas(old(regs), regs, p, newsize);
      }
    }

    /** The chunk at `p` takes over part or all of the binned chunk after it. */
    method ExtendIntoNext(p: int, nb: int, next: int, nextsize: int)
      requires Valid() && p in regs && regs[p].kind.Used? && NextOf(regs, p) == next && nb % 16 == 0 && MIN_REGION <= nb
      requires next in spot && At(chunk, next).size == nextsize && regs[p].size < nb <= regs[p].size + nextsize
      modifies `chunk, `treebins, `treemap, `smallmap, `rings, `spot, `regs, `dv, `dvsize, `top, `topsize
      ensures Valid() && Resized(old(chunk), chunk, old(regs), p) && p in Live(regs)
      ensures nb <= Live(regs)[p] < nb + MIN_REGION && Live(regs) == Live(old(regs))[p := Live(regs)[p]]
    {
      hide SegOk, BinnedOk, Edit, UserKept, HeadsOnly, Live, Resized, Cover, GoodEdit, SetInuse;
      ghost var c0 := chunk;
      FreeReads(chunk, regs, lo, hi, Held({}), p);
      HeldFree(chunk, regs, lo, hi, Held({}), next);
      CarveFacts(chunk, regs, lo, hi, Held({}), next);
      var oldsize := At(chunk, p).size;
      var rsize := oldsize + nextsize - nb;
      ghost var q := next + nextsize;
      Unbin(next, {});
      assert {} + {next} == {next};
      ghost var c, h, rg := chunk, Held({next}), regs;
      if rsize < MIN_REGION {
        var newsize := oldsize + nextsize;
        GrowGood(chunk, regs, lo, hi, h, p, q);
        ResizeLooseSeg(chunk, regs, lo, hi, h, p, q, q, Used);
        chunk := SetInuse(chunk, p, newsize);
        UnbinnedHeads(c, chunk, treebins, treemap, smallmap, rings, spot, {p, q, q});
        regs := Edit(regs, p, q, q, Used, Used);
        LiveHas(old(regs), regs, p, newsize);
      } else {
        SplitOff(p, nb, next + nextsize, {next});
        LiveHas(old(regs), regs, p, nb);
      }
      ResizedAfter(c0, c, chunk, rg, p);
    }

    /** `try_realloc_chunk`: resizes a chunk in place, if need be with help of the free chunk after it. */
    method TryReallocChunk(p: int, nb: int) returns (newp: int)
      requires Valid() && p in regs && regs[p].kind.Used? && MIN_REGION <= nb < WORD && nb % 16 == 0
      modifies `chunk, `treebins, `treemap, `smallmap, `rings, `spot, `regs, `dv, `dvsize, `top, `topsize
      ensures Valid() && (newp == 0 || newp == p)
      ensures newp == 0 <==> !RoomFor(old(regs), old(top), p, nb)
      ensures newp == 0 ==> chunk == old(chunk) && regs == old(regs) && top == old(top)
      ensures newp != 0 ==> Resized(old(chunk), chunk, old(regs), p) && p in Live(regs)
      ensures newp != 0 ==> nb <= Live(regs)[p] < nb + MIN_REGION && Live(regs) == Live(old(regs))[p := Live(regs)[p]]
    {
      hide SegOk, BinnedOk, Edit, UserKept, HeadsOnly, Freed, Live, Resized, Cover, FreeStart, FreeEnd, Neighbours;
      ghost var h := Held({});
      FreeReads(chunk, regs, lo, hi, h, p);
      TopFacts(chunk, regs, lo, hi, h);
      DvFacts(chunk, regs, lo, hi, h);
      newp := 0;
      var oldsize := At(chunk, p).size;
      var next := p + oldsize;
      assert OkAddress(p) && At(chunk, p).cinuse && p < next && At(chunk, next).pinuse;
      if oldsize >= nb {
        var rsize := oldsize - nb;
        if rsize >= MIN_REGION {
          SplitOff(p, nb, next, {});
          LiveHas(old(regs), regs, p, nb);
        } else {
          KeptSize(chunk, regs, p);
        }
        newp := p;
      } else if next == top {
        if oldsize + topsize > nb {
          ExtendIntoTop(p, nb);
          newp := p;
        }
      } else if next == dv {
        if oldsize + dvsize >= nb {
          ExtendIntoDv(p, nb);
          newp := p;
        }
      } else if !At(chunk, next).cinuse {
        var nextsize := At(chunk, next).size;
        if oldsize + nextsize >= nb {
          NeighbourBinned(chunk, regs, lo, hi, h, next);
          ExtendIntoNext(p, nb, next, nextsize);
          newp := p;
        }
      }
    }

    // ----- the initial state

    /** The state after `try_init_allocator` between the linker's `__heap_base` and `__heap_end`, if there
        is room for a minimal request: empty bins, and one segment whose only chunk is `top`. */
    constructor (heapBase: int, heapEnd: int)
      requires MIN_REGION < heapBase && heapBase + MIN_REGION + TOP_FOOT_SIZE + 16 < heapEnd <= WORD
      requires heapEnd % 16 == 0
      ensures Valid() && Live(regs) == map[]
      ensures heapBase <= top < heapBase + 16 && top + topsize + TOP_FOOT_SIZE == heapEnd
    {
      var offset := AlignOffset(heapBase + 8);
      var base, size := heapBase + offset, heapEnd - heapBase - TOP_FOOT_SIZE - offset;
      chunk := SetHead(map[], base, size, false, true);
      treebins := seq(NTREEBINS, i => 0);
      treemap, smallmap := 0, 0;
      leastAddr := heapBase;
      top, topsize, dv, dvsize := base, size, 0, 0;
      lo, hi := base - MIN_REGION, base + size + MIN_REGION;
      regs, rings, spot := FirstRegs(base, size), map[], map[];
      new;
      EmptyBins(chunk, treebins);
      FirstSeg(chunk, base, size);
    }
  }
}
