# wasi-libc: allocators, pipes, streams and tables in Dafny

A model of the parts of wasi-libc whose correctness does not show in any one function, with proofs of
what they promise. `dafny verify dfyconfig.toml` checks everything.

| area | modules |
|---|---|
| emmalloc, a boundary-tag allocator over linear memory | `Bits`, `Buckets`, `FreeLists`, `Regions`, `Tags`, `HeapInvariant`, `Emmalloc`, `EmmallocClient`, `EmmallocLimits`, `Blocks` |
| dlmalloc: tree bins, small bins, one segment | `TreeIndex`, `BinMaps`, `Places`, `Chunks`, `FreeBins`, `TrieSearch`, `BinSteps`, `BestFit`, `Segment`, `Dlmalloc`, `DlmallocClient` |
| pipes between threads | `Pipes`, `PipeRuns` |
| POSIX I/O on component-model streams | `StreamIo`, `StreamRuns` |
| UTF-8 validation of paths | `Utf8` |
| file hierarchy walk | `Fts`, `FtsWalk` |
| file descriptor table | `DescriptorTable` |
| layout of thread-local storage | `TlsLayout` |
| preopened directories | `Preopens` |

**emmalloc.** Memory is a sequence of words, indexed by byte address; a word lives at every multiple of
four. A ghost map `regs` gives the subdivision into regions and `rings` the 64 circular lists. `HeapOk`
ties them to the memory: regions tile the blocks from root to end sentinel, both size words of a region
agree, no two free regions are adjacent, the lists hold exactly the free regions, each in the list of its
payload size, and every non-empty list has its mark (marks may be stale). `sbrk` may refuse at any time,
and other code may call it. Whole runs are related to a map from live pointers to contents.

**dlmalloc.** A chunk is a record at its address: head, foot, ring links and trie links. A `Place` is a
position in a trie, given by the path from the root of its bin; `BinnedOk` says that each occupied place
holds a ring of chunks of one size, that the links agree with the places, and that the bin maps mark
exactly the non-empty bins. `SegOk` says that the chunks tile the segment, that `cinuse`, `pinuse` and
the feet tell the truth, that no two free chunks are adjacent, and that `top`, `dv` and the bins share
the free chunks among them without overlap. The configuration is the one for WASI: 32-bit sizes,
alignment 16, no mmap.

**Pipes.** Each method is one stretch of code between taking and releasing the lock, so an interleaving of
threads is a sequence of calls. The unit stream is two bits, a read and a write in flight. A whole run is
related to a pipe as its users see it: bytes, and two halves that are open or closed.

**Streams.** The host is free to block, to transfer any part of a buffer, to report the peer gone and to
lose races with a cancellation. It keeps its own record of what went through (`moved`) and of whether it
reported the peer gone (`dropped`); libc's flags and buffer are related to that record.

**fts.** A file system is a map from directories, known by device and inode, to entry lists. Entries may
name any directory, so there may be cycles. The calls of `fts_read` are related to a recursive walk, and that
to what the list of visits promises by itself.

## Model

| member | source | states |
|---|---|---|
| `Buckets.BucketRange` | emmalloc/emmalloc.c:227-304 | a payload size of at least 8 is in bucket `b` if and only if it lies in the range documented for `b` |
| `Buckets.BucketMono` | emmalloc/emmalloc.c:296-304 | the bucket index is monotone, and a higher bucket holds only strictly larger payloads |
| `FreeLists.RingsUnlink` | emmalloc/emmalloc.c:395-403 | joining the neighbours of a node removes it from its list and leaves all 64 lists well formed |
| `FreeLists.RingsLink` | emmalloc/emmalloc.c:380-417 | linking a new node between two neighbours adds it to that list and to no other |
| `HeapInvariant.FitTestExact` | emmalloc/emmalloc.c:670-676 | the 32-bit test tells whether a request fits in a free region if and only if the end of the payload does not wrap round into the region or below it |
| `HeapInvariant.FalseFitFar` | emmalloc/emmalloc.c:670-676 | a region passes the test wrongly only if memory, alignment and request exceed 2^32 bytes together |
| `EmmallocLimits.WrappingHeap` | emmalloc/emmalloc.c:670-676 | in a heap that the allocator built, a request that `malloc` admits passes the test of a region that is much too small, in the list where the search for it starts |
| `HeapInvariant.MaskStep` | emmalloc/emmalloc.c:792-840 | the next set bit of the shifted mask names a bucket below 64, and the stated relation between mask, index and marks is kept |
| `Blocks.BlockTiled` | emmalloc/emmalloc.c:18-29 | the regions of a block follow each other from its root to its end sentinel without gap or overlap |
| `Blocks.RegionInBlock` | emmalloc/emmalloc.c:18-29 | every region lies within one acquired block |
| `Emmalloc.Heap.constructor` | emmalloc/emmalloc.c:137-217 | the static initial state is a well-formed heap without regions |
| `Emmalloc.Heap.UnlinkFromFreeList` | emmalloc/emmalloc.c:395-403 | the region leaves its list; the other lists, and all words but links, stay |
| `Emmalloc.Heap.LinkToFreeList` | emmalloc/emmalloc.c:405-417 | the region joins the list of its payload size, whose mark is set |
| `Emmalloc.Heap.PrependToFreeList` | emmalloc/emmalloc.c:380-393 | the region becomes the last one of the given list, and no other list changes |
| `Emmalloc.Heap.CreateUsedRegion` | emmalloc/emmalloc.c:359-367 | both size words say `size`, and no other word changes |
| `Emmalloc.Heap.CreateFreeRegion` | emmalloc/emmalloc.c:369-378 | the ceiling carries the free flag, and no other word changes |
| `Emmalloc.Heap.DetachNeighbours` | emmalloc/emmalloc.c:993-1013 | exactly the free neighbours leave their lists, and the computed stretch is the one that becomes free |
| `Emmalloc.Heap.Free` | emmalloc/emmalloc.c:954-1023 | the heap stays well formed, the region is merged with its free neighbours, and all other allocations keep their contents; a null pointer changes nothing |
| `Emmalloc.Heap.Bump` | emmalloc/emmalloc.c:684-695 | the boundary moves up by growing the used region before it, and the tags agree again once the ceiling is written |
| `Emmalloc.Heap.Carve` | emmalloc/emmalloc.c:703-720 | the low end becomes used, and the rest goes on its list if it can hold a region |
| `Emmalloc.Heap.AttemptAllocate` | emmalloc/emmalloc.c:661-731 | succeeds if and only if the aligned request fits, returns the lowest aligned address, keeps the heap well formed and every other allocation intact; a failure changes nothing; tells exactly when the 32-bit test passes although the request does not fit |
| `Emmalloc.Heap.AttemptRegionResize` | emmalloc/emmalloc.c:1032-1094 | succeeds if and only if the region, with a free one after it, is large enough; the payload up to the smaller size and all other allocations are kept; tells exactly when the sum in the test wraps round |
| `Emmalloc.Heap.Sbrk` | libc-bottom-half/sources/sbrk.c:7-33 | for every increment: 0 gives the end of the memory, a negative one or a part of a page aborts, any other is refused with nothing changed or extends the memory by the increment and returns its old end |
| `Emmalloc.Heap.RoundUpWraps` | emmalloc/emmalloc.c:561-562 | rounding up to pages in 32 bits gives 0 exactly for amounts above 2^32 less a page, an amount that `sbrk` takes for negative exactly above 2^31 less a page up to there, and the true amount otherwise |
| `Emmalloc.Heap.AddBlock` | emmalloc/emmalloc.c:580-627 | new memory becomes a block of its own with one free region between root and end sentinel |
| `Emmalloc.Heap.ExtendBlock` | emmalloc/emmalloc.c:584-611 | memory that follows the latest block extends it: the old end sentinel is swallowed, and a free last region grows |
| `Emmalloc.Heap.ClaimMoreMemory` | emmalloc/emmalloc.c:533-629 | uses the initial heap exactly if it is unused and large enough, and exactly the rounded amount from `sbrk` otherwise; memory that follows the latest block extends it, other memory becomes a block; aborts, or claims nothing, exactly if the amount is too large or wraps to 0; otherwise fails only on a refusal, and then changes nothing |
| `Emmalloc.Heap.CycleToEnd` | emmalloc/emmalloc.c:809-816 | a region that was tried in vain is the last one of its list, and nothing else changes for a program |
| `Emmalloc.Heap.SearchBuckets` | emmalloc/emmalloc.c:785-840 | ends; on failure every list from the bucket of the request on is empty or ends with a region that was tried and does not fit, and no stale mark is left among them; a wrapped test is reported only if there is a region that passes it wrongly |
| `Emmalloc.Heap.WalkBucket` | emmalloc/emmalloc.c:848-864 | tries the regions of one list in order, to its end or exactly 99 if so limited, and on failure none of them fits; a wrapped test as above |
| `HeapInvariant.TriedNoneAmple` | emmalloc/emmalloc.c:785-840 | if the search fails, no free region is in a list all of whose regions would hold the request and its alignment |
| `Emmalloc.Heap.AllocateValidated` | emmalloc/emmalloc.c:785-892 | ends, because every round claims memory; claims memory only if no free region is in a list all of whose regions would do; without a wrapped sum, returns null only after a refusal by `sbrk`, with the highest marked list searched to its end; each other end meets its condition (`Doomed`) |
| `Emmalloc.Heap.AllocateMemory` | emmalloc/emmalloc.c:754-892 | for every alignment and size: an invalid one gives null and changes nothing; otherwise the pointer is aligned, was not in use and has room with less than a region to spare, and all other allocations are intact; memory is claimed only if no free region is in a list all of whose regions would do; null for a valid request comes only after a refusal; no sum wraps and nothing aborts if the request is in range |
| `Emmalloc.Heap.ValidateSizeLeast` | emmalloc/emmalloc.c:743-752 | the validated size is the least multiple of 4 that is at least 8 and at least the request |
| `Emmalloc.Heap.Malloc` | emmalloc/emmalloc.c:917-926 | the same for the default alignment |
| `Emmalloc.Heap.UsableSize` | emmalloc/emmalloc.c:928-947 | the payload size of the region, 0 for null |
| `Emmalloc.Heap.Realloc` | emmalloc/emmalloc.c:1104-1156 | a valid nonzero size keeps the pointer if and only if the region, with a free one after it, has room; the first min(old, new) bytes are kept whether the allocation stays or moves; less than a region is to spare; null comes only after a refusal, with the old allocation live and unchanged; no sum wraps and nothing aborts if the request is in range |
| `EmmallocClient.Disjointness` | emmalloc/emmalloc.c:22-27 | two live allocations never overlap |
| `EmmallocClient.Do` | emmalloc/emmalloc.c:754-1156 | one operation, with any arguments and in any heap state, changes the program's map from pointers to contents as it should; a call that ends otherwise leaves the map as it was, meets the condition for it, and is not a modest one |
| `EmmallocClient.Run` | emmalloc/emmalloc.c:533-1156 | every run of every script, with other users of `sbrk`, refines that map up to the first call that does not end as it should, which is never a modest one; a valid request fails only in a step in which `sbrk` refused and no free region was in a list all of whose regions would do; a resize that fits in place stays there, and so does every one that shrinks |
| `EmmallocClient.ShrinkStays` | emmalloc/emmalloc.c:1032-1156 | shrinking an allocation never fails and never moves it, and keeps its front |
| `TreeIndex.IndexRange` | dlmalloc/src/malloc.c:2841-2917 | a size lies between the least size of its tree bin and that of the next one |
| `TreeIndex.IndexExact` | dlmalloc/src/malloc.c:2841-2917 | and in the range of no other bin |
| `TreeIndex.IndexMono` | dlmalloc/src/malloc.c:2841-2854 | larger sizes have no smaller index |
| `BinMaps.LeastBitIndex` | dlmalloc/src/malloc.c:2935 | `x & -x` isolates the lowest set bit |
| `BinMaps.LeftBitsAbove` | dlmalloc/src/malloc.c:2938 | the mask selects exactly the bins above the given one, none for the last |
| `BinMaps.NextBinLeast` | dlmalloc/src/malloc.c:4482-4490 | the bin found is the lowest marked one above |
| `BinMaps.NextSmall` | dlmalloc/src/malloc.c:4626-4636 | the bin found for a small request is marked and lies beyond the two that fit without remainder |
| `Places.KeyRoot` | dlmalloc/src/malloc.c:2909-2912 | shifting a size by the bin's left shift brings its first undecided bit to the top |
| `Places.KeyStep` | dlmalloc/src/malloc.c:3668-3674 | following the top bit and shifting it out leads to the child whose interval contains the size |
| `Chunks.RingBehead` | dlmalloc/src/malloc.c:3724-3734 | taking the head out of a ring leaves a ring that starts with its last chunk |
| `BinSteps.LiftStep` | dlmalloc/src/malloc.c:3735-3789 | putting a leaf in the place of an interior node keeps all bins well formed |
| `Dlmalloc.RequestRange` | dlmalloc/src/malloc.c:2232-2242 | a padded request holds the bytes and the overhead, is a multiple of 16, and is small exactly for small requests; one beyond the largest is a size that no chunk has |
| `Dlmalloc.RequestExact` | dlmalloc/src/malloc.c:2232-2242 | it is the least chunk size that holds the bytes: a chunk is large enough for it if and only if it is for the bytes |
| `Dlmalloc.Mstate.Descend` | dlmalloc/src/malloc.c:3667-3700 | the walk ends at the node of the given size, or at the one below which it belongs |
| `Dlmalloc.Mstate.InsertLarge` | dlmalloc/src/malloc.c:3653-3702 | the bins stay well formed and hold exactly one chunk more; only link fields change |
| `Dlmalloc.Mstate.RightmostLeaf` | dlmalloc/src/malloc.c:3735-3749 | finds a proper leaf below a node, with the field that refers to it, or tells that the node is a leaf |
| `Dlmalloc.Mstate.UnlinkLarge` | dlmalloc/src/malloc.c:3721-3790 | the bins stay well formed and hold exactly one chunk less, also when an interior node is replaced by a leaf |
| `BestFit.RemainderLess` | dlmalloc/src/malloc.c:4465-4470 | the unsigned remainder is smaller than the best so far if and only if the chunk fits and fits better |
| `BestFit.FitsBetter` | dlmalloc/src/malloc.c:4501-4502 | the unsigned comparison with `dv` is true if and only if `dv` does not fit or leaves more over |
| `Dlmalloc.Mstate.SearchBin` | dlmalloc/src/malloc.c:4455-4481 | every chunk of the bin that would fit better is below the remembered subtree or larger than all of it |
| `Dlmalloc.Mstate.FindLeast` | dlmalloc/src/malloc.c:4492-4499 | the leftmost descent leaves no chunk in any tree bin that fits better |
| `Dlmalloc.Mstate.FindFit` | dlmalloc/src/malloc.c:4453-4499 | finds a smallest chunk of all tree bins that holds the request, or none if there is none |
| `Dlmalloc.Mstate.FindSmallest` | dlmalloc/src/malloc.c:4524-4539 | finds a smallest chunk of all tree bins |
| `Dlmalloc.Mstate.InsertSmall` | dlmalloc/src/malloc.c:3575-3591 | as for large chunks, with the mark of the small bin |
| `Dlmalloc.Mstate.UnlinkSmall` | dlmalloc/src/malloc.c:3594-3636 | as for large chunks; the mark goes with the last chunk of the bin |
| `Dlmalloc.Mstate.InsertChunk` | dlmalloc/src/malloc.c:3792-3796 | by size to one or the other |
| `Dlmalloc.Mstate.UnlinkChunk` | dlmalloc/src/malloc.c:3798-3801 | by size from one or the other |
| `Dlmalloc.Mstate.ReplaceDv` | dlmalloc/src/malloc.c:3638-3650 | the chunk becomes `dv`, the old one goes to its bin, and the free chunks stay covered |
| `Dlmalloc.Mstate.TmallocLarge` | dlmalloc/src/malloc.c:4453-4521 | allocates from a best fitting tree chunk, strictly tighter than `dv` unless that does not fit; otherwise changes nothing and every tree chunk is too small or no better than `dv` |
| `Dlmalloc.Mstate.TmallocSmall` | dlmalloc/src/malloc.c:4524-4559 | allocates from a smallest tree chunk, makes a remainder `dv`, and keeps the segment well formed |
| `Dlmalloc.Mstate.UseDv` | dlmalloc/src/malloc.c:4669-4687 | allocates from the lower end of `dv`, which is the rest or, if that is too small, nothing |
| `Dlmalloc.Mstate.UseTop` | dlmalloc/src/malloc.c:4689-4699 | allocates from the lower end of `top`, which is the rest |
| `Dlmalloc.Mstate.UseSmallBin` | dlmalloc/src/malloc.c:4613-4651 | allocates from a chunk of the given small bin; a remainder that is a chunk, and only such a one, is `dv` then |
| `Dlmalloc.Mstate.Dlmalloc` | dlmalloc/src/malloc.c:4568-4703 | the pointer is aligned to 16, its chunk new and of the least size that holds the bytes, every other allocation untouched; the chunk is a smallest one of all bins if `dv` does not hold the request or the chunk fits exactly or, for a large request, better than `dv`, otherwise it is `dv`, otherwise `top`; gives up, with nothing changed, only when no free chunk holds the bytes or the request is beyond the largest |
| `Dlmalloc.Mstate.DisposeChunk` | dlmalloc/src/malloc.c:4382-4448 | the chunk merges with its free neighbours; `top` takes the result if it is one of them, otherwise it is the new `dv` if that is one of them, otherwise it is binned; the segment stays well formed and other allocations untouched |
| `Dlmalloc.Mstate.Dlfree` | dlmalloc/src/malloc.c:4713-4820 | exactly the given allocation is gone, every other one is untouched, and the chunk goes where `dispose_chunk` would put it; a null pointer changes nothing |
| `Dlmalloc.Mstate.TryReallocChunk` | dlmalloc/src/malloc.c:4842-4919 | succeeds if and only if the chunk and a free one after it are large enough, leaves the chunk where it is with less than a minimal chunk to spare, and fails with nothing changed |
| `Dlmalloc.Mstate.constructor` | dlmalloc/src/malloc.c:5228-5262 | between the given heap bounds, one segment whose only chunk is `top`, rounded up to 16 and clear of the segment record at the end, and empty bins |
| `Segment.EditSeg` | dlmalloc/src/malloc.c:3428-3486 | replacing a stretch of chunks by one or two keeps the checked state if the heads around it are written |
| `Segment.LiveApart` | dlmalloc/src/malloc.c:3428-3457 | allocated chunks do not overlap |
| `DlmallocClient.Run` | dlmalloc/src/malloc.c:4382-4919 | in every run of allocations, frees and in-place resizes on one segment the segment stays well formed and the allocations change as asked, each chunk of the least size that holds the bytes; a request below the largest fails only when no free chunk holds the bytes, a resize exactly when there is no room |
| `Pipes.Pipe.UnblockWriter` | libc-bottom-half/sources/pipe.c:107-120 | wakes a blocked writer once, which completes exactly its write in flight |
| `Pipes.Pipe.UnblockReader` | libc-bottom-half/sources/pipe.c:122-135 | the same for a reader |
| `Pipes.Pipe.EnterReader` | libc-bottom-half/sources/pipe.c:137-170 | fails if a reader is blocked; otherwise the unit read always blocks, because no write is in flight |
| `Pipes.Pipe.EnterWriter` | libc-bottom-half/sources/pipe.c:184-194 | the same for a writer |
| `Pipes.Pipe.ExitReader` | libc-bottom-half/sources/pipe.c:151-182 | tells whether it was woken; if not, the read is still in flight and the cancellation succeeds |
| `Pipes.Pipe.ExitWriter` | libc-bottom-half/sources/pipe.c:196-206 | the same for a writer |
| `Pipes.Pipe.BeginRead` | libc-bottom-half/sources/pipe.c:285-341 | returns if and only if there is data, no writer or nothing was asked for, with as many bytes off the front as there are; an empty pipe with a writer blocks a blocking read and refuses any other; wakes the writer if it took anything |
| `Pipes.Pipe.ResumeRead` | libc-bottom-half/sources/pipe.c:305-340 | the same after a wake-up, and never refuses as concurrent |
| `Pipes.Pipe.BeginWrite` | libc-bottom-half/sources/pipe.c:343-410 | is accepted if and only if there is a reader and room, whole up to PIPE_BUF bytes and otherwise until the buffer is full; a broken pipe exactly without a reader, no memory exactly if the buffer could not be allocated, and a wait or refusal exactly without room |
| `Pipes.Pipe.ResumeWrite` | libc-bottom-half/sources/pipe.c:375-409 | the same after a wake-up, and never refuses as concurrent |
| `Pipes.Pipe.FreeReader` | libc-bottom-half/sources/pipe.c:217-244 | a blocked writer is woken; the pipe goes with its second half |
| `Pipes.Pipe.FreeWriter` | libc-bottom-half/sources/pipe.c:217-244 | a blocked reader is woken |
| `Pipes.Pipe.PollRead` | libc-bottom-half/sources/pipe.c:446-462 | ready exactly when there is data or no writer; otherwise refused exactly if a reader is blocked, and registered if the poll has room |
| `Pipes.Pipe.PollWrite` | libc-bottom-half/sources/pipe.c:464-481 | ready exactly when there is room or no reader; otherwise as for a reader |
| `PipeRuns.RunningLive` | libc-bottom-half/sources/pipe.c:107-206 | no thread that was not woken could go on: a reader waits on an empty pipe with a writer, a writer on one without room for its own request, and never both |
| `PipeRuns.Run` | libc-bottom-half/sources/pipe.c:285-481 | in every interleaving each call that returned has the result that a pipe with the contents of that moment should give, each step of the schedule returns, waits or changes nothing as it should, and the pipe holds what it should; so the bytes read, then the buffer, are the bytes accepted, in order; after an end of file there is no writer and everything accepted has been read; no thread waits in vain |
| `PipeRuns.Conserved` | libc-bottom-half/sources/pipe.c:285-410 | a history in which every event was allowed neither loses nor makes up bytes, and keeps their order |
| `PipeRuns.Atomic` | libc-bottom-half/sources/pipe.c:384-397 | in such a history a write of up to PIPE_BUF bytes is accepted whole |
| `PipeRuns.EndOfFile` | libc-bottom-half/sources/pipe.c:316-319 | in such a history an end of file is final: there is no writer and nothing to read |
| `StreamIo.IoState.UpdateCode` | libc-bottom-half/sources/file_utils.c:142-169 | the operation is over, a readiness test leaves its sign, and the end flag is set exactly for a dropped peer |
| `StreamIo.IoState.StartZeroLength` | libc-bottom-half/sources/file_utils.c:359-390 | starts a readiness test, or finds the stream ready, with no byte transferred |
| `StreamIo.IoState.AdvancePendingWrite` | libc-bottom-half/sources/file_utils.c:190-218 | writes the buffer out until it blocks or ends; what is left is accounted for, and when it reports ready a write will not wait |
| `StreamIo.IoState.ResolvePendingWrite` | libc-bottom-half/sources/file_utils.c:303-356 | resolved exactly if nothing is in flight; times out or gives up only if allowed to |
| `StreamIo.IoState.NonblockingWrite` | libc-bottom-half/sources/file_utils.c:585-673 | at most two passes; reports a prefix, nonempty unless the peer is gone, and would block only with an operation in flight and not when the stream was ready |
| `StreamIo.IoState.Write` | libc-bottom-half/sources/file_utils.c:537-690 | what it reports is added to what is owed to the stream; 0 for a nonempty request only if the peer is gone or the stream closed; on a stream in use it is refused if nonblocking and waits if blocking, and in no other case; would block only if the stream was not ready |
| `StreamIo.IoState.Close` | libc-bottom-half/sources/file_utils.c:439-482 | unless the peer is gone, every acknowledged byte has been transferred |
| `StreamIo.IoState.StartNonzeroRead` | libc-bottom-half/sources/file_utils.c:396-421 | a read into the internal buffer that blocks, completes or fails for lack of memory |
| `StreamIo.IoState.CompleteInternally` | libc-bottom-half/sources/file_utils.c:423-437 | hands out as much of the front of the buffer as was asked for, nothing only for an empty request or a peer that is gone |
| `StreamIo.IoState.NonblockingRead` | libc-bottom-half/sources/file_utils.c:810-858 | at most two passes; 0 bytes only when the peer is gone |
| `StreamIo.IoState.Read` | libc-bottom-half/sources/file_utils.c:740-870 | what it hands out is next in order, and buffered data is handed out as far as asked for; 0 for a nonempty request only if the peer is gone or the stream closed; on a stream in use as for a write; a ready stream makes it wait only after an ended readiness test, and then does so if the stream transfers nothing |
| `StreamIo.IoState.PollInit` | libc-bottom-half/sources/file_utils.c:912-968 | in progress exactly if an operation is in flight; ready means that a write will not wait, and for a reader that there is data, the end, or an ended readiness test; what was ready is found ready; an error only for a reader that lacks memory for its buffer |
| `StreamIo.IoState.Poll` | libc-bottom-half/sources/file_utils.c:970-1007 | busy exactly if the stream is in use, and marks it as in use while the poll waits; ready as above |
| `StreamIo.IoState.PollEnd` | libc-bottom-half/sources/file_utils.c:873-904 | without an event nothing is reported; with one a reader is always ready, and a writer exactly if no write is in flight any more; ready as above |
| `StreamRuns.Run` | libc-bottom-half/sources/file_utils.c:142-1007 | over every history of calls: every call has an answer that the state of the stream before and after it explains; until the stream reports the peer gone, the bytes transferred, then the buffer, are all bytes that writes acknowledged; for a reader what was handed out, then the buffer, is all that came; the end flag is set exactly if the peer is gone |
| `StreamRuns.RunAndClose` | libc-bottom-half/sources/file_utils.c:439-482 | after closing, unless the peer is gone, the bytes transferred are all bytes acknowledged |
| `StreamRuns.PollThenWrite` | libc-bottom-half/sources/file_utils.c:873-1007 | after poll found a writer ready, a nonblocking write takes at least one byte unless the peer is gone or memory is lacking; an event that ended the wait found it ready unless a write is still in flight |
| `StreamRuns.PollThenRead` | libc-bottom-half/sources/file_utils.c:740-1007 | after poll found a reader ready, a nonblocking read returns data, or nothing because the peer is gone, unless memory is lacking or all that poll had was an ended readiness test; every event that ended the wait found it ready |
| `StreamRuns.ReadyTwice` | libc-bottom-half/sources/file_utils.c:740-1007 | a read has to wait after a poll that found the stream ready at most once, whatever calls come in between |
| `StreamRuns.StuckReader` | libc-bottom-half/sources/file_utils.c:810-968 | that case exists: a stream whose readiness test has ended and that transfers nothing is found ready, and the read waits |
| `Utf8.AcceptedIsEncoding` | libc-bottom-half/sources/file_utils.c:30-87 | the bytes that the tests accept are the encoding of a Unicode scalar value |
| `Utf8.EncodingIsAccepted` | libc-bottom-half/sources/file_utils.c:30-87 | the encoding of every scalar value is accepted, with its own length |
| `Utf8.FirstCharacter` | libc-bottom-half/sources/file_utils.c:30-87 | a string is well formed if and only if its first character is accepted and the rest is well formed |
| `Utf8.ValidateUtf8` | libc-bottom-half/sources/file_utils.c:30-87 | returns the length of a concatenation of encodings (section 3 of RFC 3629) and -1 for any other string, without reading past the terminator |
| `Fts.Stream.constructor` | fts/musl-fts/fts.c:134-247 | the visits to come are the recursive walk of the given paths |
| `Fts.Open` | fts/musl-fts/fts.c:134-247 | refuses exactly the lists with an empty path; otherwise the visits to come are the recursive walk |
| `Fts.Stream.Stat` | fts/musl-fts/fts.c:949-1024 | a directory that is no dot entry is a cycle exactly if one on the way to it has the same device and inode; each other kind of file has its own result |
| `Fts.Stream.Build` | fts/musl-fts/fts.c:669-947 | the nodes are the entries in order, without dot entries unless asked for |
| `Fts.EnteredDistinct` | fts/musl-fts/fts.c:996-1024 | the directories entered and not yet left have distinct device and inode |
| `Fts.Stream.Read` | fts/musl-fts/fts.c:358-555 | returns the next visit of the recursive walk, and leaves the rest of it |
| `Fts.WalkTree` | fts/musl-fts/fts.c:134-555 | for every file system and list of paths, reading to the end yields exactly the recursive walk, and ends also on cyclic file systems; nothing exactly if a path is empty |
| `FtsWalk.Visits` | fts/musl-fts/fts.c:134-555 | the paths are visited in order; a directory that can be read is visited before and after its entries, which are visited in order in between, with what is below them; one that cannot is visited twice in a row; everything is classified as it should be, and a directory is a cycle exactly if it was entered and not left |
| `FtsWalk.WalkAllSound` | fts/musl-fts/fts.c:358-555 | the same for the recursive walk of any list of nodes below any directories |
| `DescriptorTable.Table.Grow` | libc-bottom-half/sources/descriptor_table.c:40-58 | the table means the same, has the slots asked for unless memory is lacking, and less than twice as many unless it is of the least size |
| `DescriptorTable.Table.HintedSearch` | libc-bottom-half/sources/descriptor_table.c:68-81 | starting at the hint does not change which descriptor is the lowest free one |
| `DescriptorTable.Table.Allocate` | libc-bottom-half/sources/descriptor_table.c:68-81 | the object goes to the lowest free descriptor, and all slots below the hint stay occupied; fails exactly if every slot is in use and memory is lacking |
| `DescriptorTable.Table.Lookup` | libc-bottom-half/sources/descriptor_table.c:90-105 | the object of a descriptor in use, and nothing for any other |
| `DescriptorTable.Table.Insert` | libc-bottom-half/sources/descriptor_table.c:206-233 | lowest free descriptor; exactly if every slot is in use and memory is lacking the object is deallocated and the table unchanged |
| `DescriptorTable.Table.Get` | libc-bottom-half/sources/descriptor_table.c:235-248 | the object, with one more outstanding reference |
| `DescriptorTable.Table.Release` | libc-bottom-half/sources/descriptor_table.c:353-359 | the object is deallocated exactly if no reference is left |
| `DescriptorTable.Table.Remove` | libc-bottom-half/sources/descriptor_table.c:115-135 | exactly that descriptor goes, and its object exactly if it was the last reference |
| `DescriptorTable.Table.Clear` | libc-bottom-half/sources/descriptor_table.c:137-150 | the table is empty, and objects survive exactly if references to them are outstanding |
| `DescriptorTable.Table.Duplicate` | libc-bottom-half/sources/descriptor_table.c:253-328 | dup gives the lowest free descriptor, DUPFD the lowest at or above its argument, dup2 and dup3 the given one with its old object dropped; exact conditions for each error, with nothing changed |
| `TlsLayout.Size` | libc-bottom-half/sources/wasip3_tls.c:11-28 | the reported alignment is that of a pointer or the largest of the libraries, whichever is larger, and the reported size is right if and only if the real one is below 2^32, although every sum wraps |
| `TlsLayout.OffsetTight` | libc-bottom-half/sources/wasip3_tls.c:11-28 | the size is at least what the libraries and the pointer array need, and wastes only the padding in front of each block |
| `TlsLayout.Init` | libc-bottom-half/sources/wasip3_tls.c:58-69 | each library gets the block that the size computation reserved for it |
| `TlsLayout.BlockInside` | libc-bottom-half/sources/wasip3_tls.c:13-69 | each block is aligned, after the pointer array and within the size |
| `TlsLayout.BlocksApart` | libc-bottom-half/sources/wasip3_tls.c:13-69 | blocks do not overlap |
| `TlsLayout.SizeThenInit` | libc-bottom-half/sources/wasip3_tls.c:3-70 | in memory of the reported size and alignment all blocks are aligned, disjoint, inside, and clear of the pointer array |
| `Preopens.StripPrefixes` | libc-bottom-half/sources/preopens.c:157-171 | removes leading parts that stand for the root |
| `Preopens.Stripped` | libc-bottom-half/sources/preopens.c:157-171 | what is left does not start with such a part, and stripping again changes nothing |
| `Preopens.StrippedSuffix` | libc-bottom-half/sources/preopens.c:157-171 | what is left is the end of the path, after slashes and dots followed by slashes only, or nothing if a single dot comes after those |
| `Preopens.PrefixMatches` | libc-bottom-half/sources/preopens.c:202-221 | true exactly if the path continues the prefix at a component boundary, for every prefix and path |
| `Preopens.Table.Resize` | libc-bottom-half/sources/preopens.c:133-151 | four slots or twice as many as before, with the registered preopens unchanged |
| `Preopens.Table.Register` | libc-bottom-half/sources/preopens.c:174-199 | appends the stripped prefix, or changes nothing exactly when a step that is needed fails |
| `Preopens.Table.FindAbspath` | libc-bottom-half/sources/preopens.c:260-307 | the longest prefix that leads to the path, the latest of equally long ones; the path is that prefix, slashes, and a relative part that is not empty and does not start with a slash; no entry exactly if none leads there |
| `Preopens.ContinuesOneWay` | libc-bottom-half/sources/preopens.c:293-303 | prefix and path leave only one such relative part |

## Findings

- emmalloc/emmalloc.c:675 adds the request to a pointer in 32 bits. When the sum wraps round, a request can
  be accepted by a region that is too small. `HeapInvariant.FitTestExact` gives the exact condition and
  `EmmallocLimits.WrappingHeap` a heap, built by the allocator, on which it fails. The sum in
  emmalloc/emmalloc.c:1050 wraps in the same way when a region is resized in place (`ResizeWraps`).
- emmalloc/emmalloc.c:562 rounds the amount to claim up to pages. Above 2^32 less a page the result wraps to
  0, and `sbrk` then returns the end of the memory as if it had been extended. Above 2^31 less a page, up
  to there, `sbrk` takes the amount for negative and aborts. `Emmalloc.Heap.RoundUpWraps` has the bounds, and
  `ClaimMoreMemory` the exact conditions.
- No allocation function here excludes these requests. A call also returns its `Fate`: `Sound`, `Wrapped`,
  `EmptyClaim` or `Aborts`, with the condition for each of the last three; what the source does after a sum
  has wrapped is not modelled. All is sound while memory, alignment and request add up to at most 2^32, for
  the memory there is and for the largest the module may have if it can still grow for this request, and the
  claim stays below 2^31 (`Emmalloc.Heap.InRange`, which a caller can check; `EmmallocClient.Modest` is the
  form that does not depend on the present memory).
- A stream that poll found ready for reading may still make a nonblocking read wait. This happens only if
  all that poll had to go by was a readiness test that ended (`Tested`, `StreamRuns.PollThenRead`), and at
  most once for a stream (`StreamRuns.ReadyTwice`); `StreamRuns.StuckReader` is such a case. A writer that
  poll found ready never waits (`StreamRuns.PollThenWrite`).
- `__wasilibc_tls_size` reports too small a size exactly when the layout needs 2^32 bytes or more.

## Left out

- emmalloc: statistics, trimming, `calloc` (whose product of sizes can wrap), `posix_memalign`, the spinlock, and code that is compiled out.
- Emmalloc.Heap.AllocateMemory: ends, with its `Fate`, at a sum that wraps; what the source does to the heap after that is not modelled, here and in the other allocation functions.
- dlmalloc: asking the system for memory, several segments, trimming, mmap, mspaces, `memalign`, `calloc`, and the part of `realloc` that moves a chunk.
- dlmalloc: user data outside the fields of a chunk's record; that fields and user data share memory is stated only as "allocated chunks keep their fields".
- Dlmalloc.Mstate.Dlmalloc: stops where the source asks the system for memory (`sys_alloc`).
- Dlmalloc.Mstate.TryReallocChunk: does not state where a remainder goes.
- Dlmalloc.Mstate.constructor: asks that the heap does not start in the first 16 bytes of memory and ends at a multiple of 16, as the end of memory does; a heap too short for a minimal request, which the source leaves for later, is not modelled.
- DlmallocClient.Run: has one segment that never grows, and relates allocations, not their contents.
- Pipes: completion events that nobody collects after a poll ended for another reason; a half is closed only when no call on it is in progress.
- PipeRuns.RunningLive: states that no thread waits in vain, not that the scheduler lets a woken thread go on.
- StreamIo: file offsets and end-of-file callbacks; a blocking call on a stream in use reports that it waits, and what it does once the other call is over is a call of its own; an operation of nonzero length that completes without the peer being gone is taken to transfer at least one byte.
- Fts: `fts_sort`, `fts_set`, `fts_children`, options without stat or across devices, changes of the working directory, the text of paths, and memory exhaustion; the linked list of nodes is a stack of nodes with their right siblings.
- Fts.Open: with no path at all the source reads a parent that was not set; the model yields no visit.
- Utf8.ValidateUtf8: lengths of 2^31 and more, which the C result type cannot hold.
- DescriptorTable: the initial standard streams, locks, and the leak check.
- TlsLayout: programs of a single module, where the compiler's own values are used.
- Preopens: populating the table from the host, and the variant for programs that change their directory.
- TCP, UDP, `ppoll`, sockets, environment, clocks and the thin wrappers around host calls.
