/** emmalloc: a boundary-tag allocator over linear memory with 64 segregated free lists. */
module Emmalloc {
  import opened Bits
  import opened Buckets
  import opened FreeLists
  import opened Regions
  import opened Tags
  import opened HeapInvariant

  /** How a call ends: as it should; with a test passed because a sum wrapped round; with a claim of
      no memory because the amount wrapped round to 0; or with `sbrk` aborting the program.  What the
      source does after a test or claim has wrapped is not modelled. */
  datatype Fate = Sound | Wrapped | EmptyClaim | Aborts

  datatype SbrkResult = Start(addr: int) | Refused | Aborted

  class Heap {
    const l: Layout
    /** Linear memory; its length is the current memory size in bytes. */
    var mem: Memory
    /** `listOfAllRegions`: the most recent root region, or 0. */
    var head: int
    /** `freeRegionBucketsUsed` */
    var used: nat
    /** How often `sbrk` has refused to grow the memory. */
    ghost var refusals: nat
    ghost var regs: Regions
    ghost var blocks: seq<Block>
    ghost var rings: seq<seq<int>>

    ghost predicate Valid()
      reads this
    {
      HeapOk(l, mem, head, used, regs, blocks, rings)
    }

    /** The heap as the module starts: every sentinel points at itself, and no memory is claimed. */
    constructor (l: Layout, mem: Memory)
      requires LayoutOk(l) && l.heapEnd <= |mem| <= l.limit && |mem| % 4 == 0
      requires forall i :: 0 <= i < NUM_RINGS ==> Linked(mem, Sentinel(l.buckets, i), Sentinel(l.buckets, i))
      ensures Valid() && this.l == l && this.mem == mem && regs == map[]
    {
      this.l, this.mem, head, used, refusals := l, mem, 0, 0, 0;
      regs, blocks, rings := map[], [], EmptyRings(l.buckets);
      new;
      StartState(l, mem);
    }

    // ----- free lists

    method UnlinkFromFreeList(region: int, ghost free: map<int, int>)
      requires Rings(mem, l.buckets, free, rings) && region in free
      modifies this`mem, this`rings
      ensures Rings(mem, l.buckets, free - {region}, rings) && OnlyList(old(rings), rings, free[region])
      ensures LinksOnly(old(mem), mem, l.buckets, free)
      ensures old(Masked(used, rings)) ==> Masked(used, rings)
    {
      hide Rings, LinksOnly, Masked;
      ghost var p := UnlinkStep(mem, l.buckets, free, rings, region);
      var prev, next := mem[region + 4], mem[region + 8];
      mem := mem[prev + 8 := next];
      mem := mem[next + 4 := prev];
      ghost var f := Without(rings[free[region]], p);
      if Masked(used, rings) { MaskedShorter(used, rings, free[region], f); }
      rings := rings[free[region] := f];
    }

    method LinkToFreeList(region: int, ghost free: map<int, int>)
      requires Rings(mem, l.buckets, free, rings) && region !in free
      requires 0 <= region < |mem| && MIN_REGION <= mem[region] < WORD
      requires Spaced(l.buckets, free[region := Slot(mem[region])], |mem|)
      requires Masked(used, rings)
      modifies this`mem, this`rings, this`used
      ensures Rings(mem, l.buckets, free[region := Slot(old(mem[region]))], rings)
      ensures |mem| == old(|mem|) && LinksOnly(old(mem), mem, l.buckets, free[region := Slot(old(mem[region]))])
      ensures Masked(used, rings)
    {
      hide Rings, Spaced, LinksOnly, Masked, Bucket, With;
      SlotIsBucket(mem[region]);
      var i := Bucket(mem[region] - HEADER);
      var first := Sentinel(l.buckets, i);
      ListEnds(mem, l.buckets, free, rings, i);
      LinkStep(mem, l.buckets, free, rings, region, i, 1);
      mem := mem[region + 4 := first];
      mem := mem[region + 8 := mem[first + 8]];
      mem := mem[first + 8 := region];
      mem := mem[mem[region + 8] + 4 := region];
      assert mem == LinkMem(old(mem), region, rings[i][0], rings[i][1]);
      MaskedSet(used, rings, i, With(rings[i], 1, region));
      rings := rings[i := With(rings[i], 1, region)];
      used := SetBit(used, i);
    }

    /** Moves a region that did not fit to the end of its list. */
    method PrependToFreeList(region: int, i: int, ghost free: map<int, int>)
      requires Rings(mem, l.buckets, free, rings) && region !in free && 0 <= i < NUM_RINGS
      requires Spaced(l.buckets, free[region := i], |mem|)
      modifies this`mem, this`rings
      ensures Rings(mem, l.buckets, free[region := i], rings) && OnlyList(old(rings), rings, i)
      ensures i < |rings| && |rings[i]| > 2 && rings[i][|rings[i]| - 2] == region
      ensures |mem| == old(|mem|) && LinksOnly(old(mem), mem, l.buckets, free[region := i])
      ensures old(Masked(used, rings)) && Bit(used, i) ==> Masked(used, rings)
    {
      hide Rings, Spaced, LinksOnly, Masked, Ring;
      var prependTo := Sentinel(l.buckets, i);
      ListEnds(mem, l.buckets, free, rings, i);
      ghost var f := rings[i];
      ghost var p := |f| - 1;
      LinkStep(mem, l.buckets, free, rings, region, i, p);
      mem := mem[region + 8 := prependTo];
      mem := mem[region + 4 := mem[prependTo + 4]];
      mem := mem[prependTo + 4 := region];
      mem := mem[mem[region + 4] + 8 := region];
      assert mem == LinkMem(old(mem), region, f[p - 1], f[p]);
      if Masked(used, rings) && Bit(used, i) { MaskedShorter(used, rings, i, With(f, p, region)); }
      rings := rings[i := With(f, p, region)];
    }

    /** Takes a free region off its list; `gone` are the free regions that are off already. */
    method Detach(region: int, ghost gone: set<int>)
      requires Shape(l, |mem|, regs) && Tagged(mem, regs) && Masked(used, rings)
      requires Rings(mem, l.buckets, FreeMap(regs) - gone, rings) && region in FreeMap(regs) - gone
      modifies this`mem, this`rings
      ensures |mem| == old(|mem|) && Tagged(mem, regs) && Masked(used, rings)
      ensures Rings(mem, l.buckets, FreeMap(regs) - (gone + {region}), rings) &&
        OnlyList(old(rings), rings, FreeMap(regs)[region])
      ensures PayloadsKept(old(mem), mem, regs) && LinksOnly(old(mem), mem, l.buckets, FreeMap(regs) - gone)
    {
      hide Shape, Tagged, Masked, Rings, OnlyList, PayloadsKept;
      UnlinkFromFreeList(region, FreeMap(regs) - gone);
      BothGone(FreeMap(regs), gone, region);
      RelinkStep(l, old(mem), mem, regs, FreeMap(regs) - gone);
    }

    static lemma BothGone(free: map<int, int>, gone: set<int>, region: int)
      ensures free - gone - {region} == free - (gone + {region})
    {
    }

    /** Puts the free region `region` of the subdivision `r` on its list. */
    method Attach(region: int, ghost free: map<int, int>, ghost r: Regions)
      requires Shape(l, |mem|, r) && Tagged(mem, r) && Masked(used, rings)
      requires region in r && r[region].kind.Free? && region !in free
      requires FreeMap(r) == free[region := Slot(r[region].size)]
      requires Rings(mem, l.buckets, free, rings)
      modifies this`mem, this`rings, this`used
      ensures |mem| == old(|mem|) && Tagged(mem, r) && Masked(used, rings)
      ensures Rings(mem, l.buckets, FreeMap(r), rings)
      ensures PayloadsKept(old(mem), mem, r)
    {
      FreeSpaced(l, |mem|, r);
      assert TaggedAt(mem, region, r[region]);
      LinkToFreeList(region, free);
      RelinkStep(l, old(mem), mem, r, FreeMap(r));
    }

    method CreateUsedRegion(p: int, size: int)
      requires 0 <= p && MIN_REGION <= size && p + size <= |mem|
      modifies this`mem
      ensures mem == old(mem)[p := size][p + size - 4 := size]
    {
      mem := mem[p := size];
      mem := mem[p + size - 4 := size];
    }

    method CreateFreeRegion(p: int, size: int)
      requires 0 <= p && MIN_REGION <= size && p + size <= |mem|
      modifies this`mem
      ensures mem == old(mem)[p := size][p + size - 4 := size + 1]
    {
      mem := mem[p := size];
      mem := mem[p + size - 4 := size + 1];
    }

    // ----- free

    /** Unlinks the region before `region` if it is free, and tells its size then, 0 otherwise. */
    method DetachPrev(region: int) returns (freed: int)
      requires Valid() && region in regs && regs[region].kind.Used?
      modifies this`mem, this`rings
      ensures PrevOf(regs, region) in regs && region - freed == FreeFrom(regs, region)
      ensures |mem| == old(|mem|) && Tagged(mem, regs) && Masked(used, rings) && PayloadsKept(old(mem), mem, regs)
      ensures Rings(mem, l.buckets, FreeMap(regs) - PrevOff(regs, region), rings)
    {
      hide Tagged, Rings, Masked, Roots, PayloadsKept, Shape, Decode, LinksOnly;
      PrevTag(l, mem, regs, region);
      PayloadsRefl(mem, regs);
      ghost var none: set<int> := {};
      assert FreeMap(regs) - none == FreeMap(regs);
      freed := 0;
      var prevRegionSizeField := mem[region - 4];
      var prevRegionSize := Decode(prevRegionSizeField);
      if prevRegionSizeField != prevRegionSize {
        Detach(region - prevRegionSize, none);
        assert none + {region - prevRegionSize} == PrevOff(regs, region);
        freed := prevRegionSize;
      }
    }

    /** Unlinks the region after `region` if it is free, and tells its size then, 0 otherwise. */
    method DetachNext(region: int, ghost gone: set<int>) returns (freed: int)
      requires Shape(l, |mem|, regs) && Tagged(mem, regs) && Masked(used, rings)
      requires region in regs && regs[region].kind.Used? && NextOf(regs, region) !in gone
      requires Rings(mem, l.buckets, FreeMap(regs) - gone, rings)
      modifies this`mem, this`rings
      ensures NextOf(regs, region) in regs && NextOf(regs, region) + freed == FreeTo(regs, region)
      ensures |mem| == old(|mem|) && Tagged(mem, regs) && Masked(used, rings) && PayloadsKept(old(mem), mem, regs)
      ensures Rings(mem, l.buckets, FreeMap(regs) - (gone + NextOff(regs, region)), rings)
    {
      hide Tagged, Rings, Masked, Roots, PayloadsKept, Shape, LinksOnly;
      NextTag(l, mem, regs, region);
      PayloadsRefl(mem, regs);
      freed := 0;
      var next := region + mem[region];
      if mem[next] != mem[next + mem[next] - 4] {
        freed := mem[next];
        Detach(next, gone);
      } else {
        assert gone + NextOff(regs, region) == gone;
      }
    }

    /** Unlinks the free neighbours of `region` and adds up the stretch that becomes free. */
    method DetachNeighbours(region: int) returns (start: int, size: int)
      requires Valid() && region in regs && regs[region].kind.Used?
      modifies this`mem, this`rings
      ensures PrevOf(regs, region) in regs && NextOf(regs, region) in regs
      ensures regs[NextOf(regs, region)].kind.Free? ==> NextOf(regs, NextOf(regs, region)) in regs
      ensures start == FreeFrom(regs, region) && start + size == FreeTo(regs, region)
      ensures |mem| == old(|mem|) && Tagged(mem, regs) && Masked(used, rings)
      ensures Rings(mem, l.buckets, FreeMap(regs) - FreeOff(regs, region), rings)
      ensures PayloadsKept(old(mem), mem, regs)
    {
      hide Tagged, Rings, Masked, Roots, PayloadsKept, Shape, GoodEdit, Covers, Replaces;
      FreeGood(l, |mem|, regs, region);
      NextTag(l, mem, regs, region);
      start, size := region, mem[region];
      var prevSize := DetachPrev(region);
      start, size := start - prevSize, size + prevSize;
      ghost var m1 := mem;
      var nextSize := DetachNext(region, PrevOff(regs, region));
      size := size + nextSize;
      PayloadsChain(old(mem), m1, mem, regs);
    }

    method Free(ptr: int)
      requires Valid()
      requires ptr != 0 ==> ptr - 4 in regs && regs[ptr - 4].kind.Used?
      modifies this`mem, this`used, this`rings, this`regs
      ensures Valid() && |mem| == old(|mem|)
      ensures ptr == 0 ==> mem == old(mem) && regs == old(regs)
      ensures ptr != 0 ==> FreedTo(old(regs), ptr - 4, regs)
      ensures ptr != 0 ==> ClientSafe(old(mem), old(regs), mem, regs, {ptr - 4}, {})
    {
      hide Tagged, Rings, Masked, Roots, PayloadsKept, Shape, Covers, Replaces, Survive, Spaced, FreeIn,
        FreeMap, Edit, Slot, ClientSafe;
      if ptr == 0 { return; }
      var region := ptr - 4;
      ghost var r0 := regs;
      FreeGood(l, |mem|, regs, region);
      var start, size := DetachNeighbours(region);
      ghost var m1 := mem;
      ghost var off, end := FreeOff(regs, region), start + size;
      EditStep(l, mem, regs, rings, off, start, end, end, Kind.Free, Kind.Free);
      FreeMapEdit(regs, start, end, end, Kind.Free, Kind.Free, off);
      CreateFreeRegion(start, size);
      regs := Freed(regs, region);
      FreedAt(r0, region);
      Attach(start, FreeMap(r0) - off, regs);
      FinishStep(l, old(mem), m1, mem, head, r0, blocks, {region}, start, end, end, Kind.Free, Kind.Free);
      FreedSafe(l, old(mem), mem, r0, region);
    }

    // ----- allocation out of one free region

    /** Fixes the boundary between the unlinked free region and the one before it.  The ceiling of
        the free region is left stale: `mid` is the memory with that word brought up to date. */
    method Bump(freeRegion: int, bump: int) returns (region: int, ghost mid: Memory)
      requires Shape(l, |mem|, regs) && Tagged(mem, regs) && freeRegion in regs && regs[freeRegion].kind.Free?
      requires Rings(mem, l.buckets, FreeMap(regs) - {freeRegion}, rings)
      requires 0 <= bump && (freeRegion + bump) % 4 == 0 && freeRegion + bump + MIN_REGION <= NextOf(regs, freeRegion)
      modifies this`mem
      ensures |mem| == old(|mem|) && region == freeRegion + bump && CanBump(|mem|, regs, freeRegion, region)
      ensures mid == BumpedMem(old(mem), regs, freeRegion, region)
      ensures Shape(l, |mid|, Bumped(regs, freeRegion, region)) && Tagged(mid, Bumped(regs, freeRegion, region))
      ensures Rings(mid, l.buckets, FreeMap(Bumped(regs, freeRegion, region)) - {region}, rings)
      ensures mem[region] == NextOf(regs, freeRegion) - region
      ensures mem == mid[NextOf(regs, freeRegion) - 4 := mem[NextOf(regs, freeRegion) - 4]]
    {
      hide Rings, Shape, FreeMap, Edit, Tagged;
      BumpStep(l, mem, regs, rings, freeRegion, freeRegion + bump);
      FreeNeighbours(l, |mem|, regs, freeRegion);
      TagOf(mem, regs, freeRegion);
      region, mid := freeRegion + bump, BumpedMem(mem, regs, freeRegion, freeRegion + bump);
      if bump != 0 {
        PrevTag(l, mem, regs, freeRegion);
        TagOf(mem, regs, PrevOf(regs, freeRegion));
        var prevRegion := freeRegion - Decode(mem[freeRegion - 4]);
        var newThisRegionSize := mem[freeRegion] - bump;
        CreateUsedRegion(prevRegion, mem[prevRegion] + bump);
        mem := mem[region := newThisRegionSize];
      }
      ghost var c := NextOf(regs, freeRegion) - 4;
      assert mem == mid[c := mem[c]];
    }

    /** Makes `[region, x)` used and lists `[x, m)`, where nothing of the stretch is on a list. */
    method SplitAt(region: int, x: int, m: int, ghost mid: Memory, ghost r: Regions, ghost off: set<int>)
      requires Shape(l, |mid|, r) && Tagged(mid, r) && Masked(used, rings) && x < m
      requires Rings(mid, l.buckets, FreeMap(r) - off, rings) && GoodEdit(r, region, x, m, Used, Kind.Free) &&
        Covers(r, region, m, off)
      requires |mem| == |mid| && 4 <= m <= |mid| && mem == mid[m - 4 := mem[m - 4]] && 0 <= region
      modifies this`mem, this`rings, this`used
      ensures |mem| == |mid| && Masked(used, rings)
      ensures Shape(l, |mem|, Edit(r, region, x, m, Used, Kind.Free)) &&
        Tagged(mem, Edit(r, region, x, m, Used, Kind.Free))
      ensures Rings(mem, l.buckets, FreeMap(Edit(r, region, x, m, Used, Kind.Free)), rings)
      ensures PayloadsKept(WriteTags(mid, region, x, m, Used, Kind.Free), mem, Edit(r, region, x, m, Used, Kind.Free))
    {
      hide Shape, Tagged, Rings, Masked, PayloadsKept, FreeMap, Edit, Spaced, FreeIn, Slot, LinksOnly, Covers;
      SplitStep(l, mid, r, rings, off, region, x, m);
      ghost var r2, tagged, free := Edit(r, region, x, m, Used, Kind.Free),
          WriteTags(mid, region, x, m, Used, Kind.Free), FreeMap(r) - off;
      CreateFreeRegion(x, m - x);
      ghost var b := mem;
      StretchKeepsRings(l, mid, mem, r, rings, off, region, m);
      LinkToFreeList(x, free);
      ghost var c := mem;
      CreateUsedRegion(region, x - region);
      RegionKeepsRings(l, c, mem, r2, rings, FreeMap(r2), region);
      assert tagged == b[region := x - region][x - 4 := x - region];
      SameWrites(b, c, l.buckets, FreeMap(r2), region, x - region, x - 4, x - region);
      RelinkStep(l, tagged, mem, r2, FreeMap(r2));
    }

    /** Turns the low end of the unlinked free region `region` into a used one and lists the rest. */
    method Carve(region: int, size: int, ghost mid: Memory, ghost r: Regions)
      requires Shape(l, |mid|, r) && Tagged(mid, r) && Masked(used, rings) && region in r && r[region].kind.Free?
      requires Rings(mid, l.buckets, FreeMap(r) - {region}, rings)
      requires size % 4 == 0 && 8 <= size && region + HEADER + size <= NextOf(r, region) <= |mid| && 0 <= region
      requires |mem| == |mid| && mem == mid[NextOf(r, region) - 4 := mem[NextOf(r, region) - 4]] &&
        mem[region] == NextOf(r, region) - region
      modifies this`mem, this`rings, this`used
      ensures |mem| == |mid| && Masked(used, rings)
      ensures NextOf(r, region) in r && region < CarveEnd(region, NextOf(r, region), size) <= NextOf(r, region)
      ensures var m := NextOf(r, region);
        var x := CarveEnd(region, m, size);
        && Shape(l, |mem|, Edit(r, region, x, m, Used, Kind.Free)) &&
          Tagged(mem, Edit(r, region, x, m, Used, Kind.Free))
        && Rings(mem, l.buckets, FreeMap(Edit(r, region, x, m, Used, Kind.Free)), rings)
        && PayloadsKept(WriteTags(mid, region, x, m, Used, Kind.Free), mem, Edit(r, region, x, m, Used, Kind.Free))
    {
      hide Shape, Tagged, Rings, Masked, PayloadsKept, FreeMap, Edit, Covers, GoodEdit, Replaces;
      CarveGood(l, |mid|, r, region, size);
      ghost var m := NextOf(r, region);
      ghost var x := CarveEnd(region, m, size);
      var whole := mem[region];
      if MIN_REGION + HEADER + size <= whole {
        SplitAt(region, region + HEADER + size, region + whole, mid, r, {region});
      } else {
        SplitStep(l, mid, r, rings, {region}, region, x, m);
        mem := mem[region + whole - 4 := whole];
        assert mem == WriteTags(mid, region, x, m, Used, Kind.Free);
        PayloadsRefl(mem, Edit(r, region, x, m, Used, Kind.Free));
      }
    }

    /** Allocates `size` bytes in one free region if they fit there; `wrapped` if the test says so and
        they do not. */
    method AttemptAllocate(freeRegion: int, alignment: nat, size: int) returns (ptr: int, wrapped: bool)
      requires Valid() && freeRegion in regs && regs[freeRegion].kind.Free?
      requires 16 <= alignment && alignment % 16 == 0 && 8 <= size && size % 4 == 0
      modifies this`mem, this`rings, this`used, this`regs
      ensures Valid() && |mem| == old(|mem|)
      ensures ptr == 0 ==> mem == old(mem) && regs == old(regs) && rings == old(rings) && used == old(used)
      ensures ptr == 0 <==> AlignUp(freeRegion + 4, alignment) + size > NextOf(old(regs), freeRegion) - 4
      ensures wrapped <==>
        && ptr == 0
        && !Overruns(AlignUp32(freeRegion + 4, alignment), size, NextOf(old(regs), freeRegion) - 4)
      ensures ptr != 0 ==> ptr == AlignUp(freeRegion + 4, alignment)
      ensures ptr != 0 ==>
        && CanBump(|mem|, old(regs), freeRegion, ptr - 4)
        && ptr + 4 + size <= NextOf(old(regs), freeRegion)
      ensures ptr != 0 ==> regs == Allocated(old(regs), freeRegion, ptr - 4, size)
      ensures ptr != 0 ==> Placed(old(regs), regs, ptr, alignment, size)
      ensures ptr != 0 ==> ClientSafe(old(mem), old(regs), mem, regs, {}, {ptr - 4})
    {
      hide Shape, Tagged, Rings, Masked, Roots, PayloadsKept, FreeMap, Edit, Survive, WriteTags, AlignUp, AlignUp32,
        Overruns, BumpedMem, Bumped, Placed, ClientSafe;
      FreeNeighbours(l, |mem|, regs, freeRegion);
      TagOf(mem, regs, freeRegion);
      var payloadStart := freeRegion + 4;
      var payloadStartAligned := AlignUp32(payloadStart, alignment);
      var payloadEnd := freeRegion + mem[freeRegion] - 4;
      InLimit(l, |mem|, regs);
      if AlignUp(payloadStart, alignment) + size <= payloadEnd { FitTest(payloadStart, alignment, size, payloadEnd); }
      if Overruns(payloadStartAligned, size, payloadEnd) { return 0, false; }
      if AlignUp(payloadStart, alignment) + size > payloadEnd { return 0, true; }
      wrapped := false;

      ghost var r0, m0 := regs, mem;
      FreeMapHas(regs, freeRegion);
      ghost var none: set<int> := {};
      Detach(freeRegion, none);
      assert none + {freeRegion} == {freeRegion};
      ghost var m1 := mem;
      var region; ghost var mid;
      region, mid := Bump(freeRegion, payloadStartAligned - payloadStart);
      ghost var r1 := Bumped(r0, freeRegion, region);
      BumpedAt(r0, freeRegion, region);
      ghost var m := NextOf(r0, freeRegion);
      ghost var x := CarveEnd(region, m, size);
      Carve(region, size, mid, r1);
      AllocateFinish(l, m0, m1, mem, head, r0, blocks, freeRegion, region, size);
      regs := Allocated(r0, freeRegion, region, size);
      ptr := region + 4;
      AllocatedSafe(l, m0, mem, r0, freeRegion, ptr, alignment, size);
    }

    // ----- resizing in place

    static function SmallerOf(x: int, y: int): int { if x < y then x else y }

    method AttemptRegionResize(region: int, size: int) returns (success: bool, wrapped: bool)
      requires Valid() && region in regs && regs[region].kind.Used?
      requires MIN_REGION <= size < WORD && size % 4 == 0
      modifies this`mem, this`rings, this`used, this`regs
      ensures Valid() && |mem| == old(|mem|)
      ensures !success ==> mem == old(mem) && regs == old(regs) && rings == old(rings) && used == old(used)
      ensures success <==> CanResize(old(regs), region, size)
      ensures (wrapped <==> ResizeWraps(old(regs), region, size)) && (wrapped ==> !success)
      ensures success ==> regs == Resized(old(regs), region, size)
      ensures success ==> PayloadsKept(old(mem), mem, old(regs) - {region})
      ensures success ==> PrefixKept(old(mem), mem, region, SmallerOf(old(regs)[region].size, size))
    {
      hide Shape, Tagged, Rings, Masked, Roots, PayloadsKept, FreeMap, Edit, Survive, Covers, GoodEdit, Replaces,
        WriteTags, PrefixKept;
      ResizeGood(l, |mem|, regs, region, size);
      NextTag(l, mem, regs, region);
      InLimit(l, |mem|, regs);
      wrapped := false;
      ghost var m0 := mem;
      var nextRegion := region + mem[region];
      var nextRegionEnd := nextRegion + mem[nextRegion];
      var newNextRegionStart := (region + size) % WORD;
      if mem[nextRegion] != mem[nextRegionEnd - 4] {
        // Next region is free
        FreeEndsBelow(l, |mem|, regs, nextRegion);
        if (newNextRegionStart + MIN_REGION) % WORD <= nextRegionEnd {
          if region + size + MIN_REGION > nextRegionEnd { return false, true; }
          FreeMapHas(regs, nextRegion);
          ghost var none: set<int> := {};
          Detach(nextRegion, none);
          assert none + {nextRegion} == {nextRegion};
          ghost var m1 := mem;
          assert mem == m1[nextRegionEnd - 4 := mem[nextRegionEnd - 4]];
          SplitAt(region, newNextRegionStart, nextRegionEnd, m1, regs, {nextRegion});
          ResizeFinish(region, size, m0, m1);
          success := true;
          return;
        } else if newNextRegionStart <= nextRegionEnd {
          success := Absorb(region, nextRegion, size);
          return;
        }
        success := false;
      } else {
        success := ShrinkUsed(region, size);
        return;
      }
    }

    /** The bookkeeping after the memory for a resize has been written. */
    ghost method ResizeFinish(region: int, size: int, m0: Memory, m1: Memory)
      requires Shape(l, |m0|, regs) && Roots(m0, head, regs, blocks) && region in regs && regs[region].kind.Used?
      requires size % 4 == 0 && MIN_REGION <= size && CanResize(regs, region, size) && |m1| == |m0| == |mem|
      requires PayloadsKept(m0, m1, regs) && FreeTo(regs, region) <= |m1| && 0 <= region
      requires Shape(l, |mem|, Resized(regs, region, size)) && Tagged(mem, Resized(regs, region, size)) &&
        Masked(used, rings)
      requires Rings(mem, l.buckets, FreeMap(Resized(regs, region, size)), rings)
      requires PayloadsKept(WriteTags(m1, region, ResizeEnd(regs, region, size), FreeTo(regs, region), Used, Kind.Free),
        mem, Resized(regs, region, size))
      modifies this`regs
      ensures Valid() && regs == Resized(old(regs), region, size)
      ensures PayloadsKept(m0, mem, old(regs) - {region})
      ensures PrefixKept(m0, mem, region, SmallerOf(old(regs)[region].size, size))
    {
      hide Shape, Tagged, Rings, Masked, Roots, PayloadsKept, FreeMap, Edit, Survive, Covers, Replaces, WriteTags,
        PrefixKept;
      ResizeGood(l, |m0|, regs, region, size);
      ghost var x, q := ResizeEnd(regs, region, size), FreeTo(regs, region);
      FinishStep(l, m0, m1, mem, head, regs, blocks, {region}, region, x, q, Used, Kind.Free);
      ResizePrefix(m0, m1, mem, regs, region, x, q, SmallerOf(regs[region].size, size));
      regs := Resized(regs, region, size);
    }

    /** The next region is free and goes with `region` as a whole. */
    method Absorb(region: int, nextRegion: int, size: int) returns (success: bool)
      requires Valid() && region in regs && regs[region].kind.Used? && MIN_REGION <= size && size % 4 == 0
      requires NextOf(regs, region) in regs && nextRegion == NextOf(regs, region) && regs[nextRegion].kind.Free?
      requires region + size <= NextOf(regs, nextRegion) < region + size + MIN_REGION
      modifies this`mem, this`rings, this`used, this`regs
      ensures Valid() && |mem| == old(|mem|) && success && CanResize(old(regs), region, size)
      ensures regs == Resized(old(regs), region, size)
      ensures PayloadsKept(old(mem), mem, old(regs) - {region})
      ensures PrefixKept(old(mem), mem, region, SmallerOf(old(regs)[region].size, size))
    {
      hide Shape, Tagged, Rings, Masked, Roots, PayloadsKept, FreeMap, Edit, Survive, Covers, GoodEdit, Replaces,
        PrefixKept;
      ResizeGood(l, |mem|, regs, region, size);
      ghost var m0 := mem;
      ghost var none: set<int> := {};
      FreeMapHas(regs, nextRegion);
      Detach(nextRegion, none);
      assert none + {nextRegion} == {nextRegion};
      ghost var m1, q := mem, FreeTo(regs, region);
      SplitStep(l, mem, regs, rings, {nextRegion}, region, q, q);
      NextTag(l, mem, regs, region);
      CreateUsedRegion(region, mem[region] + mem[nextRegion]);
      assert mem == WriteTags(m1, region, q, q, Used, Kind.Free);
      PayloadsRefl(mem, Resized(regs, region, size));
      ResizeFinish(region, size, m0, m1);
      success := true;
    }

    /** The next region is used, so `region` can only shrink. */
    method ShrinkUsed(region: int, size: int) returns (success: bool)
      requires Valid() && region in regs && regs[region].kind.Used? && MIN_REGION <= size && size % 4 == 0
      requires NextOf(regs, region) in regs && !regs[NextOf(regs, region)].kind.Free?
      modifies this`mem, this`rings, this`used, this`regs
      ensures Valid() && |mem| == old(|mem|)
      ensures !success ==> mem == old(mem) && regs == old(regs) && rings == old(rings) && used == old(used)
      ensures success <==> CanResize(old(regs), region, size)
      ensures success ==> regs == Resized(old(regs), region, size)
      ensures success ==> PayloadsKept(old(mem), mem, old(regs) - {region})
      ensures success ==> PrefixKept(old(mem), mem, region, SmallerOf(old(regs)[region].size, size))
    {
      hide Shape, Tagged, Rings, Masked, Roots, PayloadsKept, FreeMap, Edit, Survive, Covers, GoodEdit, Replaces;
      ResizeGood(l, |mem|, regs, region, size);
      NextTag(l, mem, regs, region);
      ghost var m0, r0, q := mem, regs, FreeTo(regs, region);
      PayloadsRefl(mem, regs);
      var whole := mem[region];
      if size + MIN_REGION <= whole {
        ghost var none: set<int> := {};
        assert FreeMap(regs) - none == FreeMap(regs);
        SplitStep(l, mem, regs, rings, none, region, region + size, q);
        CreateUsedRegion(region, size);
        var freeRegion := region + size;
        CreateFreeRegion(freeRegion, whole - size);
        assert mem == WriteTags(m0, region, region + size, q, Used, Kind.Free);
        Attach(freeRegion, FreeMap(regs) - none, Resized(regs, region, size));
        ResizeFinish(region, size, m0, m0);
        success := true;
      } else if size <= whole {
        ResizeSame(l, |mem|, regs, region, size);
        PayloadsLess(mem, regs, {region});
        success := true;
      } else {
        success := false;
      }
    }

    // ----- claiming memory

    /** `sbrk`: an increment of 0 asks for the end of the memory, only whole pages can be added, and
        nothing can be taken away. */
    method Sbrk(increment: int) returns (r: SbrkResult)
      modifies this`mem, this`refusals
      ensures r.Aborted? <==> increment < 0 || increment % PAGE_SIZE != 0
      ensures r.Aborted? || increment == 0 ==> mem == old(mem) && refusals == old(refusals)
      ensures increment == 0 ==> r == Start(|mem|)
      ensures r.Refused? ==> mem == old(mem) && refusals == old(refusals) + 1
      ensures r.Start? ==> r.addr == old(|mem|) && refusals == old(refusals)
      ensures r.Start? && increment > 0 ==> Grown(old(mem), mem) && |mem| == r.addr + increment <= l.limit
    {
      if increment == 0 { return Start(|mem|); }
      if increment % PAGE_SIZE != 0 { return Aborted; }
      if increment < 0 { return Aborted; }
      var refuse: bool := *;
      if refuse || |mem| + increment > l.limit {
        refusals := refusals + 1;
        return Refused;
      }
      r := Start(|mem|);
      mem := mem + seq(increment, _ => 0);
    }

    /** Other code calls `sbrk`. */
    method OtherSbrk(increment: int) returns (fate: Fate)
      requires Valid()
      modifies this`mem, this`refusals
      ensures Valid() && ClientSafe(old(mem), regs, mem, regs, {}, {})
      ensures fate == if increment < 0 || increment % PAGE_SIZE != 0 then Aborts else Sound
    {
      hide Shape, Tagged, Rings, Masked, Roots, PayloadsKept, Grown, ClientSafe;
      ghost var m0 := mem;
      PayloadsRefl(mem, regs);
      var r := Sbrk(increment);
      if r.Start? && increment > 0 {
        Mod16Trans(increment, PAGE_SIZE);
        GrowTop(l, |m0|, regs, |mem|);
        GrowStep(l, m0, mem, head, used, regs, blocks, rings);
      }
      SafeRefl(m0, mem, regs);
      fate := if r.Aborted? then Aborts else Sound;
    }

    /** Lays out the memory `[start, end)` above all regions as a new block. */
    method AddBlock(start: int, end: int)
      requires Valid() && Below(regs, start) && l.heapBase <= start && start % 4 == 0 && end % 4 == 0
      requires start + 3 * MIN_REGION <= end <= |mem|
      modifies this`mem, this`head, this`used, this`rings, this`regs, this`blocks
      ensures Valid() && |mem| == old(|mem|) && head == start && regs == NewBlock(old(regs), start, end)
      ensures PayloadsKept(old(mem), mem, old(regs))
    {
      hide Shape, Tagged, Rings, Masked, Roots, PayloadsKept, FreeMap, NewBlock, Survive, Below;
      ghost var m0, r0 := mem, regs;
      BlockAbove(l, |mem|, regs, start, end);
      // the end sentinel, the root region and the list of roots
      CreateUsedRegion(end - MIN_REGION, MIN_REGION);
      CreateUsedRegion(start, MIN_REGION);
      mem := mem[start + 4 := head];
      mem := mem[start + 8 := end];
      // the free region between them
      CreateFreeRegion(start + MIN_REGION, end - start - 2 * MIN_REGION);
      ghost var m1 := mem;
      assert m1 == BlockMem(m0, start, end, head);
      BlockStep(l, m0, regs, rings, start, end, head);
      Attach(start + MIN_REGION, FreeMap(r0), NewBlock(r0, start, end));
      BlockFinish(l, m0, mem, head, r0, blocks, start, end);
      head, regs, blocks := start, NewBlock(r0, start, end), [Block(start, end)] + blocks;
    }

    /** Writes the new end sentinel and the block's end pointer, and finds the block's last region. */
    method WriteEnd(start: int) returns (prevRegion: int)
      requires 0 < head && head + MIN_REGION <= start && start + 2 * MIN_REGION <= |mem|
      requires start - MIN_REGION in regs && regs[start - MIN_REGION].kind.End?
      requires Shape(l, |mem|, regs) && Tagged(mem, regs)
      modifies this`mem
      ensures |mem| == old(|mem|) && mem == EndMem(old(mem), head, |mem|)
      ensures prevRegion == PrevOf(regs, start - MIN_REGION)
    {
      hide Shape, Tagged, Decode;
      ghost var m0 := mem;
      PrevTag(l, mem, regs, start - MIN_REGION);
      EndTag(l, mem, regs, start - MIN_REGION);
      var end := |mem|;
      CreateUsedRegion(end - MIN_REGION, MIN_REGION);
      var prevEndSentinel := start - Decode(mem[start - 4]);
      prevRegion := prevEndSentinel - Decode(mem[prevEndSentinel - 4]);
      mem := mem[head + 8 := end];
    }

    /** Extends the latest block, which ended at `start`, over the memory added since. */
    method ExtendBlock(start: int)
      requires head != 0 && |blocks| > 0 && start == blocks[0].end && start + 2 * MIN_REGION <= |mem|
      requires Valid()
      modifies this`mem, this`used, this`rings, this`regs, this`blocks
      ensures Valid() && |mem| == old(|mem|)
      ensures Extends(old(regs), regs, start - MIN_REGION, |mem|)
      ensures PayloadsKept(old(mem), mem, old(regs) - {head})
    {
      hide Shape, Tagged, Rings, Masked, Roots, PayloadsKept, FreeMap, Claimed, Survive, Below, CanClaim, EndMem,
        Decode, LinksOnly;
      ghost var m0, r0, top, e := mem, regs, |mem|, start - MIN_REGION;
      LatestBlock(l, mem, head, regs, blocks);
      ClaimGood(l, |mem|, regs, e, top);
      ghost var f := ClaimFrom(regs, e);
      EndStep(l, mem, regs, rings, head, e, top);
      BlockRoom(l, m0, head, regs, blocks);
      EndMemTags(m0, head, top);
      var prevRegion := WriteEnd(start);
      ghost var m1 := mem;
      ghost var none: set<int> := {};
      assert FreeMap(regs) - none == FreeMap(regs);
      var free, size;
      FlagAt(l, mem, regs, prevRegion);
      if mem[prevRegion + mem[prevRegion] - 4] != Decode(mem[prevRegion + mem[prevRegion] - 4]) {
        free, size := prevRegion, |mem| - MIN_REGION - prevRegion;
        FreeMapHas(regs, prevRegion);
        Detach(prevRegion, none);
        assert none + {f} == {f};
        AboveKept(l, m1, mem, regs, none, e, top - 16);
        AboveKept(l, m1, mem, regs, none, e, top - 4);
      } else {
        free, size := start - MIN_REGION, |mem| - start;
        PayloadsRefl(mem, regs);
        NotFree(regs, f);
      }
      ghost var m2 := mem;
      ClaimStep(l, mem, regs, rings, e, f, top);
      CreateFreeRegion(free, size);
      ghost var m3 := mem;
      Attach(free, FreeMap(r0) - {f}, Claimed(r0, e, f, top));
      ClaimFinish(l, m0, m2, m3, mem, head, r0, blocks, e, f, top);
      regs, blocks := Claimed(r0, e, f, top), [Block(head, top)] + blocks[1..];
    }

    /** Rounds a size up to whole pages. */
    static function RoundUpToPage(n: nat): (r: nat)
      ensures n <= r < n + PAGE_SIZE
    {
      AlignUp(n, PAGE_SIZE)
    }

    /** The same on 32 bits ... */
    static function RoundUpToPage32(n: nat): (r: nat)
      ensures r < WORD
    {
      RoundUpToPage(n) % WORD
    }

    /** ... which is the true amount if that is below 2^32, and 0 if it is 2^32. */
    static lemma RoundUpWraps(n: nat)
      requires 0 < n < WORD
      ensures RoundUpToPage32(n) == 0 <==> n > WORD - PAGE_SIZE
      ensures n <= WORD - PAGE_SIZE ==> RoundUpToPage32(n) == RoundUpToPage(n)
      ensures HALF <= RoundUpToPage32(n) <==> HALF - PAGE_SIZE < n <= WORD - PAGE_SIZE
    {
      PageMultiple(n);
    }

    static lemma ClaimAmount(n: nat)
      requires 0 < n < WORD
      ensures RoundUpToPage32(n) % PAGE_SIZE == 0 && RoundUpToPage32(n) % 4 == 0
      ensures Signed(RoundUpToPage32(n)) % PAGE_SIZE == 0
      ensures RoundUpToPage32(n) != 0 ==> RoundUpToPage32(n) == RoundUpToPage(n)
    {
      hide RoundUpToPage;
      RoundUpPages(n);
      RoundUpWraps(n);
      if RoundUpToPage32(n) != 0 { SignedPages(RoundUpToPage(n)); }
    }

    static lemma SignedPages(r: nat)
      requires r < WORD && r % PAGE_SIZE == 0
      ensures Signed(r) % PAGE_SIZE == 0
    {
    }

    static lemma RoundUpPages(n: nat)
      ensures RoundUpToPage(n) % PAGE_SIZE == 0 && RoundUpToPage(n) % 4 == 0
    {
      PageMultiple(n);
    }

    /** The value of a word as a signed number. */
    static function Signed(w: nat): int { if w < HALF then w else w - WORD }

    /** Is the initial heap not used yet, and large enough? */
    predicate HeapServes(numBytes: nat)
      reads this`head
    {
      head == 0 && numBytes <= l.heapEnd - l.heapBase
    }

    /** Gets at least `numBytes` of new memory: the initial heap on the first call if it is large
        enough, and memory from `sbrk` otherwise. */
    method ClaimMoreMemory(numBytes: nat) returns (success: bool, fate: Fate)
      requires 3 * MIN_REGION <= numBytes < WORD
      requires Valid()
      modifies this`mem, this`head, this`used, this`rings, this`regs, this`blocks, this`refusals
      ensures Valid()
      ensures fate.Aborts? <==> !old(HeapServes(numBytes)) && HALF <= RoundUpToPage32(numBytes)
      ensures fate.EmptyClaim? <==> !old(HeapServes(numBytes)) && RoundUpToPage32(numBytes) == 0
      ensures !fate.Wrapped? && (success ==> fate.Sound?)
      ensures !success ==>
        && mem == old(mem) && regs == old(regs)
        && rings == old(rings) && used == old(used) && head == old(head)
        && refusals == old(refusals) + if fate.Sound? then 1 else 0
      ensures success ==> refusals == old(refusals) && head != 0 && old(|mem|) <= |mem|
      ensures old(head) == 0 && numBytes <= l.heapEnd - l.heapBase ==>
        success && |mem| == old(|mem|) && regs == NewBlock(old(regs), l.heapBase, l.heapEnd)
      ensures success && !(old(head) == 0 && numBytes <= l.heapEnd - l.heapBase) ==>
        && |mem| == old(|mem|) + RoundUpToPage(numBytes) <= l.limit
        && (if old(head) != 0 && |old(blocks)| > 0 && old(blocks)[0].end == old(|mem|) then
              Extends(old(regs), regs, old(|mem|) - MIN_REGION, |mem|)
            else regs == NewBlock(old(regs), old(|mem|), |mem|))
      ensures success ==> PayloadsKept(old(mem), mem, old(regs) - {old(head)})
      ensures success ==> Survive(old(regs), regs, {}) && OnlyOld(old(regs), regs)
    {
      hide Shape, Tagged, Rings, Masked, Roots, PayloadsKept, FreeMap, Claimed, Survive, Below, NewBlock, AlignUp,
        Grown, OnlyOld, RoundUpToPage, RoundUpToPage32;
      LatestBlock(l, mem, head, regs, blocks);
      fate := Sound;
      ghost var m0, r0 := mem, regs;
      if HeapServes(numBytes) {
        EmptyHeap(l, |mem|, regs);
        AddBlock(l.heapBase, l.heapEnd);
        BlockSurvives(l, |mem|, r0, l.heapBase, l.heapEnd);
        PayloadsWeaken(m0, mem, r0, {old(head)});
        success := true;
        return;
      }
      var claim := RoundUpToPage32(numBytes);
      ClaimAmount(numBytes);
      var previousEnd := if head != 0 then mem[head + 8] else 0;
      var got := Sbrk(Signed(claim));
      if got.Refused? { return false, Sound; }
      if got.Aborted? { return false, Aborts; }
      if claim == 0 { return false, EmptyClaim; }
      var start := got.addr;
      GrowTop(l, |m0|, regs, |mem|);
      GrowStep(l, m0, mem, head, used, regs, blocks, rings);
      ghost var m1 := mem;
      if start == previousEnd {
        ExtendBlock(start);
        ExtendSurvives(l, |m1|, r0, start - MIN_REGION, |mem|, regs);
        PayloadsWeaken(m0, m1, r0, {head});
        PayloadsChain(m0, m1, mem, r0 - {head});
      } else {
        AddBlock(start, start + claim);
        BlockSurvives(l, |mem|, r0, start, start + claim);
        PayloadsChain(m0, m1, mem, r0);
        PayloadsWeaken(m0, mem, r0, {old(head)});
      }
      success := true;
    }

    // ----- searching the buckets

    /** Moves a region that did not fit to the end of its list. */
    method CycleToEnd(freeRegion: int, bucketIndex: int)
      requires freeRegion in regs && regs[freeRegion].kind.Free? && Slot(regs[freeRegion].size) == bucketIndex &&
        Bit(used, bucketIndex)
      requires Valid()
      modifies this`mem, this`rings
      ensures Valid() && |mem| == old(|mem|)
      ensures OnlyList(old(rings), rings, bucketIndex)
      ensures 0 <= bucketIndex < |rings| && |rings[bucketIndex]| > 2 &&
        rings[bucketIndex][|rings[bucketIndex]| - 2] == freeRegion
      ensures PayloadsKept(old(mem), mem, regs)
    {
      hide Shape, Tagged, Rings, Masked, Roots, PayloadsKept, FreeMap, Slot, LinksOnly, Bit, Spaced, FreeIn;
      ghost var free, none := FreeMap(regs), {};
      FreeMapHas(regs, freeRegion);
      SlotOf(regs, freeRegion);
      FreeSpacedShape(l, |mem|, regs);
      ghost var m0 := mem;
      Detach(freeRegion, none);
      assert none + {freeRegion} == {freeRegion};
      ghost var m1 := mem;
      assert free == (free - {freeRegion})[freeRegion := bucketIndex];
      PrependToFreeList(freeRegion, bucketIndex, free - {freeRegion});
      RelinkStep(l, m1, mem, regs, free);
      PayloadsChain(m0, m1, mem, regs);
      RootsKept(m0, mem, head, regs, blocks);
    }

    /** Looks at the first region of every bucket that may hold the request. */
    method SearchBuckets(alignment: nat, size: int) returns (ptr: int, wrapped: bool)
      requires 16 <= alignment && alignment % 16 == 0 && 8 <= size < WORD && size % 4 == 0
      requires Valid()
      modifies this`mem, this`rings, this`used, this`regs
      ensures Valid() && |mem| == old(|mem|)
      ensures ptr == 0 ==> regs == old(regs) && ClientSafe(old(mem), old(regs), mem, regs, {}, {})
      ensures ptr == 0 && !wrapped ==> TriedFrom(regs, rings, used, Bucket(size), NUM_FREE_BUCKETS, alignment, size)
      ensures wrapped ==> ptr == 0 && HasFalseFit(regs, alignment, size)
      ensures ptr != 0 ==> Placed(old(regs), regs, ptr, alignment, size)
      ensures ptr != 0 ==> ClientSafe(old(mem), old(regs), mem, regs, {}, {ptr - 4})
    {
      hide Shape, Tagged, Rings, Masked, Roots, PayloadsKept, FreeMap, Slot, Bit, Bucket, Shr, ClearBit, Ctz, Placed,
        ClientSafe, Allocated, AlignUp, AlignUp32, Overruns, Tried, HasFalseFit;
      wrapped := false;
      ghost var m0, r0, u0 := mem, regs, used;
      PayloadsRefl(mem, regs);
      BucketRange(size, 0);
      ListEnds(mem, l.buckets, FreeMap(regs), rings, 0);
      var bucketIndex := Bucket(size);
      var bucketMask := Shr(used, bucketIndex);
      while bucketMask != 0
        invariant 0 <= bucketIndex <= NUM_FREE_BUCKETS
        invariant bucketMask == Shr(used, bucketIndex)
        invariant Valid() && |mem| == |m0| && regs == r0 && PayloadsKept(m0, mem, regs)
        invariant !wrapped && |rings| == NUM_RINGS
        invariant TriedFrom(regs, rings, used, Bucket(size), bucketIndex, alignment, size)
        decreases NUM_FREE_BUCKETS - bucketIndex, bucketMask
      {
        MaskStep(used, rings, bucketIndex);
        var indexAdd := Ctz(bucketMask);
        NoMarks(used, bucketIndex, bucketIndex + indexAdd);
        TriedSkip(regs, rings, used, Bucket(size), bucketIndex, bucketIndex + indexAdd, alignment, size);
        bucketIndex := bucketIndex + indexAdd;
        bucketMask := Shr(bucketMask, indexAdd);
        FirstOf(l, mem, regs, rings, bucketIndex);
        var freeRegion := mem[Sentinel(l.buckets, bucketIndex) + 8];
        if freeRegion != Sentinel(l.buckets, bucketIndex) {
          ghost var m1 := mem;
          ptr, wrapped := AttemptAllocate(freeRegion, alignment, size);
          if wrapped {
            FalseFitAt(regs, freeRegion, alignment, size);
            SafeRefl(m0, mem, r0);
            return;
          }
          if ptr != 0 {
            SafeRefl(m0, m1, r0);
            SafeTrans(m0, r0, m1, r0, mem, regs, {}, {ptr - 4});
            return;
          }
          ghost var g := rings;
          CycleToEnd(freeRegion, bucketIndex);
          TriedCycled(regs, g, rings, used, Bucket(size), bucketIndex, freeRegion, alignment, size);
          PayloadsChain(m0, m1, mem, regs);
          ShrAdd(used, bucketIndex, 1);
          bucketIndex := bucketIndex + 1;
          bucketMask := Shr(bucketMask, 1);
        } else {
          // The bit was stale.
          ClearStale(used, rings, bucketIndex);
          TriedCleared(regs, rings, used, Bucket(size), bucketIndex, alignment, size);
          used := ClearBit(used, bucketIndex);
          bucketMask := bucketMask - 1;
        }
      }
      NoMarks(used, bucketIndex, NUM_FREE_BUCKETS);
      TriedSkip(regs, rings, used, Bucket(size), bucketIndex, NUM_FREE_BUCKETS, alignment, size);
      SafeRefl(m0, mem, r0);
      ptr := 0;
    }

    /** Tries the regions of one bucket from the `k`-th on, at most 99 of them if `limited`. */
    method WalkBucket(first: int, bucketIndex: int, alignment: nat, size: int, limited: bool, ghost k: int)
        returns (ptr: int, wrapped: bool, freeRegion: int, ghost k': int)
      requires 16 <= alignment && alignment % 16 == 0 && 8 <= size < WORD && size % 4 == 0
      requires 0 <= bucketIndex < NUM_RINGS && |rings| == NUM_RINGS && 0 < k < |rings[bucketIndex]| &&
        first == rings[bucketIndex][k]
      requires Valid()
      modifies this`mem, this`rings, this`used, this`regs
      ensures Valid() && |mem| == old(|mem|)
      ensures ptr == 0 ==> mem == old(mem) && regs == old(regs) && rings == old(rings) && used == old(used)
      ensures ptr == 0 ==> k <= k' < |rings[bucketIndex]| && freeRegion == rings[bucketIndex][k']
      ensures ptr == 0 ==> NoFit(regs, rings, bucketIndex, k, k', alignment, size)
      ensures ptr == 0 && !wrapped && !limited ==> k' == |rings[bucketIndex]| - 1
      ensures ptr == 0 && limited ==> k' <= k + 99
      ensures ptr == 0 && !wrapped && limited ==> k' == k + 99 || k' == |rings[bucketIndex]| - 1
      ensures wrapped ==> ptr == 0 && HasFalseFit(regs, alignment, size)
      ensures ptr != 0 ==> Placed(old(regs), regs, ptr, alignment, size)
      ensures ptr != 0 ==> ClientSafe(old(mem), old(regs), mem, regs, {}, {ptr - 4})
    {
      hide Shape, Tagged, Rings, Masked, Roots, FreeMap, Slot, Placed, ClientSafe, Allocated, AlignUp, AlignUp32,
        Overruns, NoFit, HasFalseFit;
      wrapped := false;
      NoFitNone(regs, rings, bucketIndex, k, alignment, size);
      freeRegion, k' := first, k;
      NodeIs(l, mem, regs, rings, bucketIndex, k');
      var numTriesLeft := 99;
      while freeRegion != Sentinel(l.buckets, bucketIndex) && (!limited || numTriesLeft > 0)
        invariant mem == old(mem) && regs == old(regs) && rings == old(rings) && used == old(used) && Valid()
        invariant k <= k' < |rings[bucketIndex]| && freeRegion == rings[bucketIndex][k']
        invariant !wrapped && (limited ==> numTriesLeft == 99 - (k' - k) >= 0)
        invariant freeRegion == Sentinel(l.buckets, bucketIndex) <==> k' == |rings[bucketIndex]| - 1
        invariant NoFit(regs, rings, bucketIndex, k, k', alignment, size)
        decreases |rings[bucketIndex]| - k'
      {
        numTriesLeft := numTriesLeft - 1;
        NodeIs(l, mem, regs, rings, bucketIndex, k');
        ptr, wrapped := AttemptAllocate(freeRegion, alignment, size);
        if wrapped { FalseFitAt(regs, freeRegion, alignment, size); }
        if ptr != 0 || wrapped { return; }
        NoFitMore(regs, rings, bucketIndex, k, k', alignment, size);
        freeRegion := mem[freeRegion + 8];
        k' := k' + 1;
        NodeIs(l, mem, regs, rings, bucketIndex, k');
      }
      ptr := 0;
    }

    /** The memory that there is, and the most that there can be if it can still grow for this request,
        leave room for the request below 2^32; and `sbrk` is asked for a positive number of bytes. */
    ghost predicate Roomy(alignment: nat, size: nat)
      reads this`mem
    {
      && |mem| + alignment + size <= WORD && RoundUpToPage(size + 3 * MIN_REGION) < HALF
      && (|mem| + RoundUpToPage(size + 3 * MIN_REGION) <= l.limit ==> l.limit + alignment + size <= WORD)
    }

    /** The first region of the highest marked list, and if that list is of large regions, a limited
        search of it; `k` is the position reached. */
    method SearchLargest(alignment: nat, size: int)
        returns (ptr: int, wrapped: bool, largestBucketIndex: int, freeRegion: int, ghost k: int)
      requires 16 <= alignment && alignment % 16 == 0 && 8 <= size < WORD && size % 4 == 0
      requires Valid()
      modifies this`mem, this`rings, this`used, this`regs
      ensures Valid() && |mem| == old(|mem|)
      ensures ptr == 0 ==> mem == old(mem) && regs == old(regs) && rings == old(rings) && used == old(used)
      ensures ptr == 0 && used != 0 ==>
        && largestBucketIndex == Log2(used) < NUM_RINGS && 0 <= largestBucketIndex && |rings| == NUM_RINGS
        && NoFit(regs, rings, largestBucketIndex, 1, k, alignment, size) && 0 < k < |rings[largestBucketIndex]|
        && freeRegion == rings[largestBucketIndex][k]
      ensures ptr == 0 && !wrapped && used != 0 && Shr(used, 30) != 0 ==>
        k == 100 || k == |rings[largestBucketIndex]| - 1
      ensures wrapped ==> ptr == 0 && HasFalseFit(regs, alignment, size)
      ensures ptr != 0 ==> Placed(old(regs), regs, ptr, alignment, size)
      ensures ptr != 0 ==> ClientSafe(old(mem), old(regs), mem, regs, {}, {ptr - 4})
    {
      hide Shape, Tagged, Rings, Masked, Roots, FreeMap, Placed, ClientSafe, NoFit, Log2, Shr, HasFalseFit;
      ptr, wrapped, largestBucketIndex, freeRegion, k := 0, false, 0, 0, 1;
      if used != 0 {
        TopBucket(used, rings);
        largestBucketIndex := Log2(used);
        FirstOf(l, mem, regs, rings, largestBucketIndex);
        freeRegion := mem[Sentinel(l.buckets, largestBucketIndex) + 8];
        NoFitNone(regs, rings, largestBucketIndex, 1, alignment, size);
        if Shr(used, 30) != 0 {
          ptr, wrapped, freeRegion, k := WalkBucket(freeRegion, largestBucketIndex, alignment, size, true, 1);
        }
      }
    }

    /** `allocate_memory` after its arguments have been validated. */
    method AllocateValidated(alignment: nat, size: int) returns (ptr: int, fate: Fate)
      requires 16 <= alignment && alignment % 16 == 0 && 8 <= size && size % 4 == 0 && size + 3 * MIN_REGION < WORD
      requires Valid()
      modifies this`mem, this`head, this`used, this`rings, this`regs, this`blocks, this`refusals
      ensures Valid()
      ensures ptr == 0 && fate.Sound? ==> refusals > old(refusals) && Exhausted(regs, rings, used, alignment, size)
      ensures ptr == 0 && fate.Sound? ==>
        TriedFrom(regs, rings, used, Bucket(size), NUM_FREE_BUCKETS, alignment, size)
      ensures ptr == 0 ==> ClientSafe(old(mem), old(regs), mem, regs, {}, {})
      ensures ptr != 0 ==> fate.Sound? && Placed(old(regs), regs, ptr, alignment, size)
      ensures ptr != 0 ==> ClientSafe(old(mem), old(regs), mem, regs, {}, {ptr - 4})
      ensures Doomed(fate, alignment, size)
      ensures |mem| == old(|mem|) || old(|mem|) + RoundUpToPage(size + 3 * MIN_REGION) <= |mem|
      ensures |mem| != old(|mem|) || head != old(head) || refusals != old(refusals) ==>
        NoneAmple(old(regs), alignment, size)
      decreases l.limit - |mem|, if head == 0 then 1 else 0, 0
    {
      hide NoneAmple, Shape, Tagged, Rings, Masked, Roots, PayloadsKept, FreeMap, Survive, OnlyOld, Placed, ClientSafe,
        NoFit, RoundUpToPage, RoundUpToPage32, Log2, Shr, TriedFrom, HasFalseFit;
      ghost var m0, r0 := mem, regs;
      var wrapped;
      fate := Sound;
      ptr, wrapped := SearchBuckets(alignment, size);
      if wrapped { return 0, Wrapped; }
      if ptr != 0 { return; }
      TriedNoneAmple(l, mem, regs, rings, used, alignment, size);

      // The largest bucket may still have a suitable region.
      ghost var m1, k := mem, 1;
      var largestBucketIndex, freeRegion;
      ptr, wrapped, largestBucketIndex, freeRegion, k := SearchLargest(alignment, size);
      if wrapped { return 0, Wrapped; }
      if ptr != 0 {
        SafeTrans(m0, r0, m1, r0, mem, regs, {}, {ptr - 4});
        return;
      }

      // Must sbrk() in more memory.
      LatestBlock(l, mem, head, regs, blocks);
      var success;
      success, fate := ClaimMoreMemory(size + 3 * MIN_REGION);
      if !fate.Sound? { return; }
      if success {
        ptr, fate := Again(alignment, size, m0, r0, m1, old(head));
        return;
      }

      // As a last resort, go on where the search left off.
      if used != 0 {
        ghost var k1 := k;
        ptr, wrapped, freeRegion, k := WalkBucket(freeRegion, largestBucketIndex, alignment, size, false, k1);
        if wrapped { return 0, Wrapped; }
        if ptr != 0 {
          SafeTrans(m0, r0, m1, r0, mem, regs, {}, {ptr - 4});
        } else {
          NoFitJoin(regs, rings, largestBucketIndex, 1, k1, k, alignment, size);
        }
      }
    }

    /** Tries again after memory has been claimed; `m0` and `m1` are the memory before the call and before
        the claim. */
    method Again(alignment: nat, size: int, ghost m0: Memory, ghost r0: Regions, ghost m1: Memory, ghost head0: int)
        returns (ptr: int, fate: Fate)
      requires 16 <= alignment && alignment % 16 == 0 && 8 <= size && size % 4 == 0 && size + 3 * MIN_REGION < WORD
      requires Valid() && head != 0 && |m1| <= |mem|
      requires ClientSafe(m0, r0, m1, r0, {}, {}) && PayloadsKept(m1, mem, r0 - {head0})
      requires Survive(r0, regs, {}) && OnlyOld(r0, regs) && (head0 in r0 ==> !r0[head0].kind.Used?)
      modifies this`mem, this`head, this`used, this`rings, this`regs, this`blocks, this`refusals
      ensures Valid()
      ensures ptr == 0 && fate.Sound? ==> refusals > old(refusals) && Exhausted(regs, rings, used, alignment, size)
      ensures ptr == 0 && fate.Sound? ==>
        TriedFrom(regs, rings, used, Bucket(size), NUM_FREE_BUCKETS, alignment, size)
      ensures ptr == 0 ==> ClientSafe(m0, r0, mem, regs, {}, {})
      ensures ptr != 0 ==> fate.Sound? && Placed(r0, regs, ptr, alignment, size)
      ensures ptr != 0 ==> ClientSafe(m0, r0, mem, regs, {}, {ptr - 4})
      ensures Doomed(fate, alignment, size)
      ensures |mem| == old(|mem|) || old(|mem|) + RoundUpToPage(size + 3 * MIN_REGION) <= |mem|
      decreases l.limit - |mem|, 0, 1
    {
      hide Shape, Tagged, Rings, Masked, Roots, PayloadsKept, FreeMap, Survive, OnlyOld, Placed, ClientSafe,
        RoundUpToPage, TriedFrom, HasFalseFit, Exhausted;
      InLimit(l, |mem|, regs);
      ClaimSafe(m1, r0, mem, regs, head0);
      SafeTrans(m0, r0, m1, r0, mem, regs, {}, {});
      ghost var m2, r2 := mem, regs;
      ptr, fate := AllocateValidated(alignment, size);
      if ptr != 0 {
        SafeTrans(m0, r0, m2, r2, mem, regs, {}, {ptr - 4});
        PlacedSince(m0, r0, m2, r2, regs, ptr, alignment, size);
      } else {
        SafeTrans(m0, r0, m2, r2, mem, regs, {}, {});
      }
    }

    /** What it takes for a call to end other than it should. */
    ghost predicate Doomed(fate: Fate, alignment: nat, size: nat)
      reads this`regs
    {
      match fate
      case Sound => true
      case Wrapped => HasFalseFit(regs, alignment, size)
      case EmptyClaim => RoundUpToPage32(size + 3 * MIN_REGION) == 0
      case Aborts => HALF <= RoundUpToPage32(size + 3 * MIN_REGION)
    }

    // ----- the allocation functions

    static const MAX_ALLOC_SIZE: int := 0xFFFFFFC7
    static const MALLOC_ALIGNMENT: int := 16

    static function ValidateAlignment(alignment: nat): (r: nat)
      ensures r >= MALLOC_ALIGNMENT && r >= alignment && (r == MALLOC_ALIGNMENT || r == alignment)
    {
      if alignment > MALLOC_ALIGNMENT then alignment else MALLOC_ALIGNMENT
    }

    static function ValidateSize(size: nat): nat { if size > 8 then AlignUp(size, 4) else 8 }

    /** It is the least multiple of 4 that is at least 8 and at least the size. */
    static lemma ValidateSizeLeast(size: nat, n: nat)
      requires size <= n && 8 <= n && n % 4 == 0
      ensures size <= ValidateSize(size) <= n && 8 <= ValidateSize(size) && ValidateSize(size) % 4 == 0
    {
      AlignUpMultiple(size, 4);
    }

    /** Requests for which 32-bit arithmetic suffices: pointers into the memory do not wrap when the
        request is added. */
    ghost predicate InRange(alignment: nat, size: nat)
      reads this`mem
    {
      Roomy(ValidateAlignment(alignment), ValidateSize(size))
    }

    method AllocateMemory(alignment: nat, size: nat) returns (ptr: int, fate: Fate)
      requires Valid()
      modifies this`mem, this`head, this`used, this`rings, this`regs, this`blocks, this`refusals
      ensures Valid()
      ensures !PowerOf2(alignment) || size > MAX_ALLOC_SIZE ==>
        && ptr == 0 && fate.Sound? && mem == old(mem) && regs == old(regs)
        && refusals == old(refusals)
      ensures Doomed(fate, ValidateAlignment(alignment), ValidateSize(size))
      ensures old(InRange(alignment, size)) ==> fate.Sound?
      ensures |mem| != old(|mem|) || head != old(head) || refusals != old(refusals) ==>
        NoneAmple(old(regs), ValidateAlignment(alignment), ValidateSize(size))
      ensures PowerOf2(alignment) && size <= MAX_ALLOC_SIZE && ptr == 0 && fate.Sound? ==>
        refusals > old(refusals) && Exhausted(regs, rings, used, ValidateAlignment(alignment), ValidateSize(size))
      ensures ptr == 0 ==> ClientSafe(old(mem), old(regs), mem, regs, {}, {})
      ensures ptr != 0 ==> fate.Sound? && Placed(old(regs), regs, ptr, ValidateAlignment(alignment), ValidateSize(size))
      ensures ptr != 0 ==> ClientSafe(old(mem), old(regs), mem, regs, {}, {ptr - 4})
    {
      hide Tagged, Rings, Masked, Roots, Shape, PowerOf2, Placed, ClientSafe, Exhausted, RoundUpToPage, RoundUpToPage32,
        AlignUp, HasFalseFit, NoneAmple;
      if !PowerOf2(alignment) || size > MAX_ALLOC_SIZE {
        PayloadsRefl(mem, regs);
        SafeRefl(mem, mem, regs);
        return 0, Sound;
      }
      var al, sz := ValidateAlignment(alignment), ValidateSize(size);
      Validated(alignment, size);
      ghost var top := |mem|;
      ptr, fate := AllocateValidated(al, sz);
      if old(Roomy(al, sz)) {
        RoundUpWraps(sz + 3 * MIN_REGION);
        InLimit(l, |mem|, regs);
        if fate.Wrapped? { FalseFitFar(l, |mem|, regs, al, sz); }
      }
    }

    static lemma Validated(alignment: nat, size: nat)
      requires PowerOf2(alignment)
      ensures ValidateAlignment(alignment) >= 16 && ValidateAlignment(alignment) % 16 == 0
      ensures size <= ValidateSize(size) && 8 <= ValidateSize(size) && ValidateSize(size) % 4 == 0
      ensures ValidateSize(size) <= size + 8
    {
      if alignment > 16 { PowerOf2Mod16(alignment); }
      AlignUpMultiple(size, 4);
    }

    method Malloc(size: nat) returns (ptr: int, fate: Fate)
      requires Valid()
      modifies this`mem, this`head, this`used, this`rings, this`regs, this`blocks, this`refusals
      ensures Valid()
      ensures size > MAX_ALLOC_SIZE ==> ptr == 0 && fate.Sound?
      ensures Doomed(fate, MALLOC_ALIGNMENT, ValidateSize(size))
      ensures old(InRange(MALLOC_ALIGNMENT, size)) ==> fate.Sound?
      ensures size <= MAX_ALLOC_SIZE && ptr == 0 && fate.Sound? ==> refusals > old(refusals)
      ensures |mem| != old(|mem|) || head != old(head) || refusals != old(refusals) ==>
        NoneAmple(old(regs), MALLOC_ALIGNMENT, ValidateSize(size))
      ensures ptr == 0 ==> ClientSafe(old(mem), old(regs), mem, regs, {}, {})
      ensures ptr != 0 ==> fate.Sound? && Placed(old(regs), regs, ptr, MALLOC_ALIGNMENT, ValidateSize(size))
      ensures ptr != 0 ==> ClientSafe(old(mem), old(regs), mem, regs, {}, {ptr - 4})
    {
      hide HeapOk, ClientSafe, Exhausted, RoundUpToPage, RoundUpToPage32, AlignUp, HasFalseFit;
      assert PowerOf2(16) by { assert PowerOf2(1) && PowerOf2(2) && PowerOf2(4) && PowerOf2(8); }
      Validated(16, size);
      ptr, fate := AllocateMemory(MALLOC_ALIGNMENT, size);
    }

    /** `malloc_usable_size` of a live pointer. */
    method UsableSize(ptr: int) returns (size: int)
      requires ptr != 0 ==> ptr - 4 in regs && regs[ptr - 4].kind.Used?
      requires Valid()
      ensures size == if ptr == 0 then 0 else regs[ptr - 4].size - HEADER
    {
      if ptr == 0 { return 0; }
      TagOf(mem, regs, ptr - 4);
      size := mem[ptr - 4] - HEADER;
    }

    /** A client writes one word of its allocation. */
    method Store(ptr: int, offset: int, value: int)
      requires ptr - 4 in regs && regs[ptr - 4].kind.Used? && 0 <= offset < regs[ptr - 4].size - HEADER
      requires Valid()
      modifies this`mem
      ensures Valid() && ptr + offset < |mem| == old(|mem|) && 0 <= ptr + offset
      ensures mem == old(mem)[ptr + offset := value]
      ensures ClientSafe(old(mem), regs, mem, regs, {ptr - 4}, {ptr - 4})
    {
      hide Shape, Rings, Masked, Roots, FreeMap, ClientSafe;
      TagOf(mem, regs, ptr - 4);
      ghost var m0 := mem;
      mem := mem[ptr + offset := value];
      StoreStep(l, m0, mem, head, used, regs, blocks, rings, ptr - 4);
    }

    method Memcpy(dst: int, src: int, n: int)
      requires 0 <= dst && 0 <= src && 0 <= n && dst + n <= |mem| && src + n <= |mem| &&
        (dst + n <= src || src + n <= dst)
      modifies this`mem
      ensures SameOutside(old(mem), mem, dst, dst + n) && Copied(old(mem), src, mem, dst, n)
    {
      var i := 0;
      while i < n
        invariant 0 <= i <= n && SameOutside(old(mem), mem, dst, dst + i) && Copied(old(mem), src, mem, dst, i)
      {
        mem := mem[dst + i := mem[src + i]];
        i := i + 1;
      }
    }

    static lemma AlignedToo(r: nat, alignment: nat)
      requires PowerOf2(alignment) && alignment > 0 && r % ValidateAlignment(alignment) == 0
      ensures r % alignment == 0
    {
      hide PowerOf2;
      if alignment < 16 {
        SmallPowers(alignment);
        Mod16Parts(r);
      }
    }

    static lemma SmallPowers(m: nat)
      requires PowerOf2(m) && 0 < m < 16
      ensures m == 1 || m == 2 || m == 4 || m == 8
    {
      assert !PowerOf2(3) && !PowerOf2(5) && !PowerOf2(7);
    }

    /** In range, the test for resizing in place does not wrap either. */
    lemma RoomyResize(alignment: nat, size: nat, a: int)
      requires Valid() && a in regs && regs[a].kind.Used?
      ensures InRange(alignment, size) ==> !ResizeWraps(regs, a, ValidateSize(size) + HEADER)
    {
      hide Tagged, Rings, Masked, Roots, Shape, RoundUpToPage;
      if ResizeWraps(regs, a, ValidateSize(size) + HEADER) {
        FreeEndsBelow(l, |mem|, regs, NextOf(regs, a));
        NextAbove(l, |mem|, regs, NextOf(regs, a));
      }
      NextAbove(l, |mem|, regs, a);
    }

    static lemma ValidatedTwice(size: nat)
      ensures ValidateSize(size) <= size + 8
      ensures size <= ValidateSize(size) && ValidateSize(ValidateSize(size)) == ValidateSize(size) &&
        ValidateSize(size) % 4 == 0 && ValidateSize(size) >= 8
    {
      AlignUpMultiple(size, 4);
    }

    /** The case of `realloc` that moves the allocation; `size` has been validated. */
    method ReallocMove(ptr: int, alignment: nat, size: nat) returns (newptr: int, fate: Fate)
      requires ptr - 4 in regs && regs[ptr - 4].kind.Used?
      requires PowerOf2(alignment) && ValidateSize(size) == size
      requires Valid()
      modifies this`mem, this`head, this`used, this`rings, this`regs, this`blocks, this`refusals
      ensures Valid()
      ensures newptr == 0 ==> ClientSafe(old(mem), old(regs), mem, regs, {}, {})
      ensures newptr == 0 && fate.Sound? && size <= MAX_ALLOC_SIZE ==> refusals > old(refusals)
      ensures refusals != old(refusals) ==> NoneAmple(old(regs), ValidateAlignment(alignment), size)
      ensures newptr == 0 ==> Doomed(fate, ValidateAlignment(alignment), size)
      ensures (newptr != 0 || old(InRange(alignment, size)) ==> fate.Sound?) && (size > MAX_ALLOC_SIZE ==> newptr == 0)
      ensures newptr != 0 ==>
        && newptr > 4 && newptr - 4 in regs && regs[newptr - 4].kind.Used?
        && size + HEADER <= regs[newptr - 4].size < size + HEADER + MIN_REGION
      ensures newptr != 0 ==>
        && newptr % ValidateAlignment(alignment) == 0
        && (newptr - 4 in old(regs) ==> !old(regs)[newptr - 4].kind.Used?)
      ensures newptr != 0 ==> ClientSafe(old(mem), old(regs), mem, regs, {ptr - 4}, {newptr - 4})
      ensures newptr != 0 ==> forall want :: want <= old(regs)[ptr - 4].size - HEADER && want <= size ==>
        Copied(old(mem), ptr, mem, newptr, want)
    {
      hide Shape, Tagged, Rings, Masked, Roots, PowerOf2, ClientSafe, Exhausted, RoundUpToPage, AlignUp, PrefixKept,
        Copied, SameOutside, Doomed, Roomy, NoneAmple;
      ghost var m0, r0 := mem, regs;
      TagOf(mem, regs, ptr - 4);
      newptr, fate := AllocateMemory(alignment, size);
      if newptr == 0 { return; }
      CopyOver(ptr, newptr, size, m0, r0);
    }

    /** Copies what there is room for to the new allocation, and frees the old one. */
    method CopyOver(ptr: int, newptr: int, size: nat, ghost m0: Memory, ghost r0: Regions)
      requires Valid() && ptr - 4 in r0 && r0[ptr - 4].kind.Used? && newptr > 4 && newptr - 4 in regs
      requires regs[newptr - 4].kind.Used? && size + HEADER <= regs[newptr - 4].size
      requires newptr - 4 in r0 ==> !r0[newptr - 4].kind.Used?
      requires ClientSafe(m0, r0, mem, regs, {}, {newptr - 4}) && TaggedAt(m0, ptr - 4, r0[ptr - 4])
      modifies this`mem, this`used, this`rings, this`regs
      ensures Valid() && newptr - 4 in regs && regs[newptr - 4].kind.Used? &&
        regs[newptr - 4].size == old(regs)[newptr - 4].size
      ensures ClientSafe(m0, r0, mem, regs, {ptr - 4}, {newptr - 4})
      ensures forall want :: want <= r0[ptr - 4].size - HEADER && want <= size ==> Copied(m0, ptr, mem, newptr, want)
    {
      hide Shape, Tagged, Rings, Masked, Roots, ClientSafe, PrefixKept, Copied, SameOutside, FreedTo;
      ghost var m1, r1 := mem, regs;
      KeptOf(m0, r0, m1, r1, {}, {newptr - 4}, ptr - 4);
      UsedApart(l, |mem|, regs, ptr - 4, newptr - 4);
      TagOf(mem, regs, ptr - 4);
      var n := if size < mem[ptr - 4] - HEADER then size else mem[ptr - 4] - HEADER;
      Memcpy(newptr, ptr, n);
      ghost var m2 := mem;
      WithinPayload(m1, m2, newptr - 4, regs[newptr - 4].size, n);
      StoreStep(l, m1, mem, head, used, regs, blocks, rings, newptr - 4);
      Free(ptr);
      FreedKeeps(l, |m2|, r1, ptr - 4, newptr - 4, regs);
      KeptOf(m2, r1, mem, regs, {ptr - 4}, {}, newptr - 4);
      forall want | want <= r0[ptr - 4].size - HEADER && want <= size
        ensures Copied(m0, ptr, mem, newptr, want)
      {
        MovedContents(m0, m1, m2, mem, ptr, newptr, r0[ptr - 4].size, n, r1[newptr - 4].size, want);
      }
      MovedSafe(m0, r0, m1, r1, m2, mem, regs, ptr - 4, newptr - 4);
    }

    /** The case of `realloc` that leaves the allocation where it is; `size` bytes of the caller's were
        validated to `sz`. */
    method ReallocHere(ptr: int, size: nat, sz: nat) returns (resized: bool, wrapped: bool)
      requires ptr - 4 in regs && regs[ptr - 4].kind.Used? && size <= sz && 8 <= sz && sz % 4 == 0 && sz + HEADER < WORD
      requires Valid()
      modifies this`mem, this`rings, this`used, this`regs
      ensures Valid() && |mem| == old(|mem|) && (wrapped <==> ResizeWraps(old(regs), ptr - 4, sz + HEADER))
      ensures !resized ==> mem == old(mem) && regs == old(regs) && ClientSafe(old(mem), old(regs), mem, regs, {}, {})
      ensures (resized <==> FitsInPlace(old(regs), ptr - 4, sz + HEADER)) && (wrapped ==> !resized)
      ensures resized ==>
        && ptr - 4 in regs && regs[ptr - 4].kind.Used?
        && sz + HEADER <= regs[ptr - 4].size < sz + HEADER + MIN_REGION
      ensures resized ==> ClientSafe(old(mem), old(regs), mem, regs, {ptr - 4}, {ptr - 4})
      ensures resized ==> Copied(old(mem), ptr, mem, ptr, SmallerOf(old(regs)[ptr - 4].size - HEADER, size))
    {
      hide Shape, Tagged, Rings, Masked, Roots, ClientSafe, PayloadsKept, PrefixKept, Copied, CanResize, Resized,
        ResizeWraps, FitsInPlace;
      ghost var m0, r0 := mem, regs;
      TagOf(mem, regs, ptr - 4);
      Mod4(sz, HEADER);
      InPlace(l, |mem|, regs, ptr - 4, sz + HEADER);
      resized, wrapped := AttemptRegionResize(ptr - 4, sz + HEADER);
      if resized {
        ResizedSafe(l, m0, mem, r0, ptr - 4, sz + HEADER);
        InPlaceContents(m0, mem, ptr, r0[ptr - 4].size, sz + HEADER, SmallerOf(r0[ptr - 4].size - HEADER, size));
      } else {
        PayloadsRefl(mem, regs);
        SafeRefl(mem, mem, regs);
      }
    }

    /** `realloc` with an alignment. */
    method Realloc(ptr: int, alignment: nat, size: nat) returns (r: int, fate: Fate)
      requires ptr != 0 ==> ptr - 4 in regs && regs[ptr - 4].kind.Used?
      requires ptr != 0 ==> PowerOf2(alignment) && (alignment == 0 || ptr % alignment == 0)
      requires Valid()
      modifies this`mem, this`head, this`used, this`rings, this`regs, this`blocks, this`refusals
      ensures Valid()
      ensures r == 0 && (ptr == 0 || size != 0) ==> ClientSafe(old(mem), old(regs), mem, regs, {}, {})
      ensures r == 0 && fate.Sound? && (ptr == 0 || size != 0) ==>
        (PowerOf2(alignment) && ValidateSize(size) <= MAX_ALLOC_SIZE ==> refusals > old(refusals))
      ensures refusals != old(refusals) ==> NoneAmple(old(regs), ValidateAlignment(alignment), ValidateSize(size))
      ensures ptr != 0 && 0 < size <= MAX_ALLOC_SIZE ==>
        (r == ptr <==> FitsInPlace(old(regs), ptr - 4, ValidateSize(size) + HEADER))
      ensures size > MAX_ALLOC_SIZE ==> r == 0 && fate.Sound?
      ensures r != 0 || old(InRange(alignment, size)) ==> fate.Sound?
      ensures Doomed(fate, ValidateAlignment(alignment), ValidateSize(size)) ||
        (fate.Wrapped? && ptr != 0 && ResizeWraps(regs, ptr - 4, ValidateSize(size) + HEADER))
      ensures ptr != 0 && size == 0 ==> r == 0 && fate.Sound?
      ensures ptr != 0 && size == 0 ==> ClientSafe(old(mem), old(regs), mem, regs, {ptr - 4}, {})
      ensures r != 0 ==>
        && r - 4 in regs && regs[r - 4].kind.Used?
        && size + HEADER <= regs[r - 4].size < ValidateSize(size) + HEADER + MIN_REGION
      ensures r != 0 && alignment != 0 ==> r % alignment == 0
      ensures r != 0 && r != ptr && r - 4 in old(regs) ==> !old(regs)[r - 4].kind.Used?
      ensures r != 0 && ptr == 0 ==> ClientSafe(old(mem), old(regs), mem, regs, {}, {r - 4})
      ensures r != 0 && ptr != 0 ==> ClientSafe(old(mem), old(regs), mem, regs, {ptr - 4}, {r - 4})
      ensures r != 0 && ptr != 0 ==> Copied(old(mem), ptr, mem, r, SmallerOf(old(regs)[ptr - 4].size - HEADER, size))
    {
      hide Shape, Tagged, Rings, Masked, Roots, PowerOf2, ClientSafe, Exhausted, RoundUpToPage, AlignUp, PayloadsKept,
        PrefixKept, Copied, CanResize, Resized, ValidateSize, ResizeWraps, Roomy, NoneAmple,
        FitsInPlace;
      ValidatedTwice(size);
      fate := Sound;
      if ptr == 0 {
        r, fate := AllocateMemory(alignment, size);
        if r != 0 && alignment != 0 { AlignedToo(r, alignment); }
        return;
      }
      if size == 0 {
        Free(ptr);
        return 0, Sound;
      }
      if size > MAX_ALLOC_SIZE {
        PayloadsRefl(mem, regs);
        SafeRefl(mem, mem, regs);
        return 0, Sound;
      }
      var sz := ValidateSize(size);
      RoomyResize(alignment, size, ptr - 4);
      var resized, wrapped := ReallocHere(ptr, size, sz);
      if wrapped { return 0, Wrapped; }
      if resized { return ptr, Sound; }
      r, fate := ReallocMove(ptr, alignment, sz);
      if r != 0 && alignment != 0 { AlignedToo(r, alignment); }
    }
  }
}
