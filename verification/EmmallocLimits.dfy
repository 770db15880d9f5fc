/** A heap on which emmalloc's fit test wraps round. */
module EmmallocLimits {
  import opened Bits
  import opened Buckets
  import opened FreeLists
  import opened Regions
  import opened HeapInvariant
  import opened Emmalloc

  const BUCKETS: int := 0x1000

  /** 256 MiB of initial heap at 512 MiB, and no more memory than that. */
  const LAYOUT: Layout := Layout(BUCKETS, 0x1FFF_FFFC, 0x3000_001C, 0x3000_001C)

  /** The free region that the initial heap consists of, and a request. */
  const REGION: int := 0x2000_000C
  const REQUEST: int := 0xF000_0000

  /** Initially each list sentinel points at itself. */
  function SelfLinked(a: int): int {
    if BUCKETS <= a < BUCKETS + NODE_SIZE * NUM_RINGS then BUCKETS + (a - BUCKETS) / NODE_SIZE * NODE_SIZE else 0
  }

  lemma SelfLinks(i: int)
    requires 0 <= i < NUM_RINGS
    ensures var s := Sentinel(BUCKETS, i); SelfLinked(s + 4) == s && SelfLinked(s + 8) == s
  {
  }

  lemma TopBucketMin()
    ensures BucketMin(63) == 0x800_0000
  {
    assert BucketMin(39) == 0x8000 && BucketMin(45) == 8 * BucketMin(39) && BucketMin(51) == 8 * BucketMin(45);
    assert BucketMin(57) == 8 * BucketMin(51);
  }

  /** In a heap as the allocator builds it, a request below the largest allowed one passes the test of a
      region that is much too small for it, in the list where the search for the request starts. */
  method WrappingHeap() returns (h: Heap, wrapped: bool)
    ensures h.Valid() && wrapped && REGION in h.regs && h.regs[REGION] == Region(0x1000_0000, Free, LAYOUT.heapBase)
    ensures REQUEST <= Heap.MAX_ALLOC_SIZE && h.regs[REGION].size < REQUEST
    ensures Slot(h.regs[REGION].size) == Bucket(REQUEST)
  {
    hide HeapOk, Bucket, BucketMin, Rings, AlignUp;
    var mem := seq(LAYOUT.heapEnd, a => SelfLinked(a));
    forall i | 0 <= i < NUM_RINGS
      ensures Linked(mem, Sentinel(BUCKETS, i), Sentinel(BUCKETS, i))
    {
      SelfLinks(i);
    }
    h := new Heap(LAYOUT, mem);
    h.AddBlock(LAYOUT.heapBase, LAYOUT.heapEnd);
    var ptr;
    ptr, wrapped := h.AttemptAllocate(REGION, 16, REQUEST);
    TestPasses();
    TopBucketMin();
    LastBucket(REQUEST);
    LastBucket(0x1000_0000 - HEADER);
  }

  lemma TestPasses()
    ensures AlignUp(REGION + 4, 16) == REGION + 4
    ensures !Overruns(AlignUp32(REGION + 4, 16), REQUEST, REGION + 0x1000_0000 - 4)
  {
  }
}
