# Verified model of the allocator and of packet framing

This project models the two cores of the repository and proves what they promise.

The larger one is the allocator under `libs/tcmalloc/src`:

- `PageSpace.dfy` and `PageHeap.dfy`: the page heap. Spans of pages are carved, split, merged, released to the system and grown. One invariant ties together the tiling of all pages by spans, the page map (whose entries inside a span may be stale), the free lists, the byte counters and the heap limit. Every public operation keeps it and says what a client sees.
- `HeapRanges.dfy`: walking all spans in address order through the page map.
- `RadixMap.dfy`: the two- and three-level radix trees behind the page map, as partial maps.
- `Words.dfy`, `PackedCache.dfy` and `Allocator.dfy`: the packed page-to-class cache and the allocation layer that must keep it in step with the page map, with aligned allocation.
- `SizeMap.dfy`: the table from sizes to size classes.
- `Tiers.dfy`: the central free lists and transfer caches, as steps of any number of threads that interleave between lock points. The results hold in every run.
- `ThreadCache.dfy`: the caches of threads, whose lists are disjoint, and the room they share.
- `SmallObjects.dfy`: the threads' lists on top of the central lists, so that the conservation of objects holds over all tiers in every run; and the carving of spans into objects.
- `AddressMap.dfy`, `Marking.dfy` and `Regions.dfy`: the leak checker's address map, its mark phase and the filtering of root regions.

The smaller one is the connection code: `Sockets.dfy` (the growing ring buffers) and `Framing.dfy` (packets on a byte stream). `Arith.dfy` holds facts about powers of two and division.

The operating system is a parameter: functions that answer each call by its number, any way they like. They may refuse to give or take back memory, deliver or take any number of bytes, or fail. A result that depends on a refusal names the call that was refused. The heap limit is fixed for a heap's life. Run `dafny verify dfyconfig.toml` to verify everything.

Some properties hold only under a condition, which is proved exactly:

- `SizeMap.EnoughObjects`: a transfer setting of -4 or less makes the page-adding loop of `common.cc:145-155` run forever, because a negative count is compared as an unsigned number.
- `RadixMap.LastKeyWraps` and `Ensure`: a range of keys that runs past the largest number is reported as ensured although nothing was done.
- `Sockets.SocketInput.Feed`: by itself, `feed` returns 0 for a full buffer although bytes are pending (`socket_input.cpp:129` and `:232`). The connection's loop never feeds a full buffer: `Framing.Connector.Turn` keeps room in it.
- `Framing.Connector.ExecParse`: the code parses after every read without looking whether a whole frame is there (`connector_thread.cpp:32-34`, `connector.cpp:50-64`). Packets come out right exactly as long as after every read at least as many whole packets have arrived as there were reads (`Framing.LoopTimely`; for a stream that was sent, `Framing.SentIsReceived`). `Framing.CutFrame` says what happens to a frame that is read in part: its header is lost, or bytes beyond the end of the buffers are copied.
- `Framing.Connector.Turn`: after a reset (result -1000) the connection stays open (`socket_input.cpp:121-124`, `connector_thread.cpp:90-98`), and parsing the emptied input copies beyond the end of the buffers. `Sockets.Overflows` says exactly when an input that reads all it asks for is reset, `Framing.PacketLost` shows such a packet, and `HalfFits` gives a bound below which it never happens.
- `SizeMap.SizeMap.Init`: the numbers of objects moved at a time are positive, as the central lists assert (`central_freelist.cc:68`), exactly if the transfer setting is.
- `Sockets.SocketOutput.Write`: with contents not at the front, a write that need not grow the buffer but passes its end copies beyond it (`socket_output.cpp:45`); `InBounds` is the exact condition under which it does not.
- `AddressMap.AddressMap.FindInside`: the code comments promise completeness for a bound on all sizes; the leak checker calls it with a smaller bound, so the result is stated for every bound.
- `Framing.FrameRoundTrip`: ids beyond 16 bits are cut off.

## Model

| member | source | states |
|---|---|---|
| PageHeap.PageHeap.constructor | libs/tcmalloc/src/page_heap.cc:65-76 | An empty heap satisfies the invariant: tiling, page map, lists, byte counts, limit. |
| PageHeap.PageHeap.DescriptorFound | libs/tcmalloc/src/page_heap.h:147-149 | The entry names the covering span at a span's first page, and at all its pages once it has a size class, whatever stale entries say elsewhere. |
| PageHeap.PageHeap.DescriptorMissing | libs/tcmalloc/src/page_heap.h:147-149 | A page the heap never got has no entry. |
| PageHeap.PageHeap.RecordSpan | libs/tcmalloc/src/page_heap.h:298-303 | Exactly the first and the last page of the span are pointed at it. |
| PageHeap.PageHeap.NewSpan | libs/tcmalloc/src/span.cc:54-63 | The descriptor is one that is not in use: the one given back last, if any was, else the next that was never used. |
| PageHeap.PageHeap.DeleteSpan | libs/tcmalloc/src/span.cc:65-71 | The descriptor leaves those in use and is the first to be used again. |
| PageHeap.PageHeap.PrependToFreeList | libs/tcmalloc/src/page_heap.cc:398-422 | The span joins the one list chosen by its length and location, and that location's byte count grows by its size. |
| PageHeap.PageHeap.RemoveFromFreeList | libs/tcmalloc/src/page_heap.cc:424-442 | The span leaves exactly its list; every other span is still listed right. |
| PageHeap.PageHeap.CommitSpan | libs/tcmalloc/src/page_heap.cc:237-244 | Committed bytes grow by the span's size. |
| PageHeap.PageHeap.DecommitSpan | libs/tcmalloc/src/page_heap.cc:246-257 | Committed bytes fall by the span's size exactly if the system takes the memory back. |
| PageHeap.PageHeap.CheckAndHandlePreMerge | libs/tcmalloc/src/page_heap.cc:324-342 | A neighbour is taken off its list exactly if it may be merged, by location or, in aggressive mode, after decommitting it, which fails only if the system refuses; a refusal changes nothing. |
| PageHeap.PageHeap.MergeLeft | libs/tcmalloc/src/page_heap.cc:344-382 | After looking left no listed span would still merge from the left; clients see no change and no shorter free space. |
| PageHeap.PageHeap.MergeRight | libs/tcmalloc/src/page_heap.cc:383-395 | The same to the right. |
| PageHeap.PageHeap.MergeIntoFreeList | libs/tcmalloc/src/page_heap.cc:344-396 | The span is listed after merging with its free neighbours; the used spans and the total of free and unmapped bytes are as they were; without aggressive decommit a coalesced heap stays coalesced and committed bytes are unchanged. |
| PageHeap.PageHeap.ReleaseSpan | libs/tcmalloc/src/page_heap.cc:477-489 | Either the system refuses and nothing happens, or one normal span's memory is returned, page for page. |
| PageHeap.PageHeap.ReleaseAtLeastNPages | libs/tcmalloc/src/page_heap.cc:491-526 | Ends; returns at least the pages asked for unless the system refused to take memory back or no normal memory is left; without aggressive decommit committed bytes fall by exactly the pages returned; a coalesced heap stays coalesced. |
| PageHeap.PageHeap.ReleaseRound | libs/tcmalloc/src/page_heap.cc:497-524 | One round over all lists makes progress, finds that nothing normal is left, or was refused by the system. |
| PageHeap.PageHeap.IncrementalScavenge | libs/tcmalloc/src/page_heap.cc:444-475 | Memory is released exactly when the counter has run out and the rate is not tiny, at least a page unless refused or none is left; the next time is set by rate and pages. |
| PageHeap.PageHeap.Delete | libs/tcmalloc/src/page_heap.cc:302-317 | The used spans lose exactly this one; its pages are free again, in a free span at least as long; no free space gets shorter; a coalesced heap stays coalesced. |
| PageHeap.PageHeap.EnsureLimit | libs/tcmalloc/src/page_heap.cc:528-550 | Agrees only if the pages fit under the limit, and always if they fit at once, releasing nothing then; otherwise, with releasing, it fails only if the system refused, if nothing normal is left, or, with enough free memory, if it is refused. |
| PageHeap.PageHeap.Carve | libs/tcmalloc/src/page_heap.cc:259-300 | The first n pages of a free span become a used span, the rest stays a free span where it was, and no other span changes; the skipped merge of the rest loses no coalescing. |
| PageHeap.PageHeap.Split | libs/tcmalloc/src/page_heap.cc:219-235 | A used span becomes two used spans with the same pages; no other span changes. |
| PageHeap.PageHeap.RegisterSizeClass | libs/tcmalloc/src/page_heap.cc:552-562 | Every page of the span points at it and its class is set. |
| PageHeap.PageHeap.UpperBound | libs/tcmalloc/src/page_heap.cc:178-198 | The first large span of at least n pages in best-fit order, NULL exactly if there is none. |
| PageHeap.PageHeap.AllocLarge | libs/tcmalloc/src/page_heap.cc:168-217 | With room under the limit serves the best fit over both sets of large spans, and NULL only if none is long enough; with a limit and enough free memory it gives NULL only if the system refused to take memory back; calls itself at most once, since the second time there is room. |
| PageHeap.PageHeap.SearchFreeAndLargeLists | libs/tcmalloc/src/page_heap.cc:78-109 | With room under the limit carves from a free span of least length (ties among large ones by address) and returns NULL exactly if no free span has n pages. |
| PageHeap.PageHeap.New | libs/tcmalloc/src/page_heap.cc:113-166 | The result is a used span of exactly n pages not used before, and the other used spans are as they were. With room under the limit a fitting free span is always used, the best fit. Without a limit the heap else grows and then serves the request: NULL means that the system refused the n pages, or that they exceed the address space, and nothing was mapped. |
| PageHeap.PageHeap.GrowHeap | libs/tcmalloc/src/page_heap.cc:624-685 | On success pages never had before are mapped and some free span can serve n pages; clients see no other change. With room under the limit it fails only if the system refuses n pages. |
| PageHeap.PageHeap.LimitKept | libs/tcmalloc/src/page_heap.cc:528-550 | With a limit and nothing taken but what was asked for, memory taken less memory unmapped never exceeds the limit. |
| PageHeap.PageHeap.InUseRemainder | libs/tcmalloc/src/page_heap.cc:646-677 | System bytes are free, unmapped and in-use bytes together; committed bytes are system bytes less unmapped ones. |
| PageHeap.PageHeap.SpanAddressable | libs/tcmalloc/src/page_heap.cc:669-677 | Every span lies within the address space and has a descriptor. |
| PageSpace.AbsorbTiled | libs/tcmalloc/src/page_heap.cc:371-393 | Merging two adjacent spans keeps the tiling. |
| PageSpace.AbsorbGeometry | libs/tcmalloc/src/page_heap.cc:371-393 | Merging needs only one page map entry to be rewritten. |
| PageSpace.CutGeometry | libs/tcmalloc/src/page_heap.cc:225-234 | Splitting needs only the three boundary entries to be rewritten. |
| PageSpace.GrownAll | libs/tcmalloc/src/page_heap.cc:669-677 | New pages recorded at their two ends keep tiling, page map and lists right. |
| PageSpace.ClassifyGeometry | libs/tcmalloc/src/page_heap.cc:552-562 | Filling in the interior entries makes all of a classed span's entries right. |
| PageSpace.AbsorbLeftClear | libs/tcmalloc/src/page_heap.cc:371-382 | What is left of the merged span was left of the neighbour, so it does not clash. |
| PageSpace.AbsorbRightClear | libs/tcmalloc/src/page_heap.cc:383-393 | Merging to the right keeps the left clear and clears the right. |
| PageSpace.CutCoalesced | libs/tcmalloc/src/page_heap.cc:267-290 | A carved span's rest clashes with nothing, so it need not be merged. |
| PageSpace.RelabelCoalesced | libs/tcmalloc/src/page_heap.cc:477-487 | A span whose location changes leaves the others coalesced. |
| PageSpace.LeftDescriptor | libs/tcmalloc/src/page_heap.cc:373-374 | The entry before a span names the span that ends there, or is empty. |
| PageSpace.RightDescriptor | libs/tcmalloc/src/page_heap.cc:384-385 | The entry after a span names the span that starts there, or is empty. |
| PageSpace.RoundEmpty | libs/tcmalloc/src/page_heap.cc:497-524 | If a whole round found every list empty, no byte is free at that location. |
| PageSpace.LargeBest | libs/tcmalloc/src/page_heap.cc:168-199 | The better of the two sets' first spans is the best fit among all large spans. |
| PageSpace.FrontBest | libs/tcmalloc/src/page_heap.cc:78-96 | The front of the first non-empty list is a best fit. |
| PageSpace.NoneShorterStep | libs/tcmalloc/src/page_heap.cc:78-109 | Two empty lists rule their length out. |
| PageSpace.LeastExists | libs/tcmalloc/src/span.h:119-125 | The best-fit order has a least element in every non-empty set of spans. |
| PageSpace.JoinPages | libs/tcmalloc/src/page_heap.cc:398-405 | The bytes of a set of spans grow by exactly the pages of a span that joins it. |
| HeapRanges.Tree.Next | libs/tcmalloc/src/pagemap.h:191-207 | The first pointer at or after a page, in a tree of two or of three levels. |
| HeapRanges.Record | libs/tcmalloc/src/page_heap.h:298-303 | Writing an entry to the tree that holds a page map is writing it to the page map. |
| HeapRanges.RadixFinds | libs/tcmalloc/src/pagemap.h:191-207 | What a radix tree that holds the heap's page map finds is the first entry. |
| HeapRanges.NextStartsSpan | libs/tcmalloc/src/page_heap.cc:585-590 | From where a span ends, the first entry found is the first page of the next span, despite stale entries. |
| HeapRanges.GetNextRange | libs/tcmalloc/src/page_heap.cc:585-614 | The range of the next span in address order, found through the radix tree, with its kind; none exactly if all spans have been passed. |
| HeapRanges.IterateOverRanges | libs/tcmalloc/src/tcmalloc.cc:588-614 | On a heap that does not change, every span is visited exactly once, in address order: there are as many ranges as spans, each span's is among them, and they ascend. |
| PackedCache.ProbePacked | libs/tcmalloc/src/packed-cache-inl.h:159-185 | A packed entry answers for its key with its value. |
| PackedCache.ProbeOther | libs/tcmalloc/src/packed-cache-inl.h:159-201 | It never answers for another key of the slot. |
| PackedCache.ProbeInvalid | libs/tcmalloc/src/packed-cache-inl.h:159-190 | An invalidated entry does not answer for its key. |
| PackedCache.Cache.Put | libs/tcmalloc/src/packed-cache-inl.h:181-185 | The key hits with its value, the other keys of the slot miss, all other keys are as before. |
| PackedCache.Cache.Invalidate | libs/tcmalloc/src/packed-cache-inl.h:187-190 | All keys of the slot miss, all other keys are as before. |
| PackedCache.Cache.Clear | libs/tcmalloc/src/packed-cache-inl.h:176-179 | Every key misses. |
| Words.WordRoundTrip | libs/tcmalloc/src/packed-cache-inl.h:181-185 | Page ids and classes survive being stored in a machine word. |
| Allocator.Allocator.SpanToMallocResult | libs/tcmalloc/src/tcmalloc.cc:1160-1164 | Invalidating a large block's first page makes the cache agree with the page map for it. |
| Allocator.Allocator.MallocPages | libs/tcmalloc/src/tcmalloc.cc:1310-1337 | A page-level allocation keeps the cache coherent and hands out exactly the pages asked for; with room under the heap limit it fails only if no free span fits, and without a limit only if also the system refuses the memory. |
| Allocator.Allocator.PopulateSpan | libs/tcmalloc/src/central_freelist.cc:321-344 | A span for small objects is registered and its class cached for every page; the cache stays coherent; with room under the heap limit it fails only if no free span fits, and without a limit only if also the system refuses the memory. |
| Allocator.Allocator.SetCachedSizeClass | libs/tcmalloc/src/page_heap.h:215-218 | The page hits with its class; any other page keeps its entry or loses it. |
| Allocator.Allocator.FreeSpan | libs/tcmalloc/src/tcmalloc.cc:1402-1411 | Freeing a span leaves the cache coherent even if it keeps stale entries. |
| Allocator.Allocator.Free | libs/tcmalloc/src/tcmalloc.cc:1420-1468 | For a page holding the start of a freeable object the class found, by hit or by lookup, is the owning span's; a page the heap never had is recognised as invalid; a large block's span is freed. |
| Allocator.Allocator.AlignSkip | libs/tcmalloc/src/tcmalloc.cc:1596-1599 | The loop ends with the first aligned page, before a whole alignment has been skipped. |
| Allocator.Allocator.MemalignPages | libs/tcmalloc/src/tcmalloc.cc:1576-1614 | The result is aligned and backed by exactly the pages it needs; the skipped head and the trailer are free again; an overflowing size gives NULL and changes nothing; without a heap limit it fails else only if the system refuses the memory. |
| Allocator.Pages | libs/tcmalloc/src/common.h:151-154 | The least number of pages that hold the bytes. |
| Allocator.AlignedPage | libs/tcmalloc/src/tcmalloc.cc:1596-1599 | A page address is aligned exactly if its page number is a multiple of the alignment in pages. |
| RadixMap.LastKeyWraps | libs/tcmalloc/src/pagemap.h:162-163 | The last key of a range is computed right exactly if the range does not run past the largest number; else the loop over it does nothing. |
| RadixMap.PageMap2.Set | libs/tcmalloc/src/pagemap.h:155-160 | Exactly the one key changes. |
| RadixMap.PageMap2.Ensure | libs/tcmalloc/src/pagemap.h:162-182 | All keys of the range become settable and no entry changes. It succeeds exactly if no call of the allocator failed and the last key computed is not beyond the largest or lies before the first. |
| RadixMap.PageMap2.Next | libs/tcmalloc/src/pagemap.h:191-207 | The first pointer set at or after the key. |
| RadixMap.PageMap2.constructor | libs/tcmalloc/src/pagemap.h:140-143 | For any number of bits all keys are unset. |
| RadixMap.PageMap3.Set | libs/tcmalloc/src/pagemap.h:263-269 | Exactly the one key changes. |
| RadixMap.PageMap3.Ensure | libs/tcmalloc/src/pagemap.h:271-299 | All keys of the range become settable and no entry changes. It succeeds exactly if no call of the allocator failed and the last key computed is not beyond the largest or lies before the first. |
| RadixMap.PageMap3.Next | libs/tcmalloc/src/pagemap.h:304-325 | The first pointer set at or after the key, skipping missing nodes and leaves. |
| RadixMap.PageMap3.constructor | libs/tcmalloc/src/pagemap.h:246-249 | For any number of bits from two on all keys are unset. |
| RadixMap.PageMap3.GetAt | libs/tcmalloc/src/pagemap.h:252-261 | A lookup reads the leaf of its key's block, NULL beyond the largest key. |
| AddressMap.HashInt | libs/tcmalloc/src/addressmap-inl.h:202-207 | A cluster's bucket is within the table. |
| AddressMap.AddressMap.FindCluster | libs/tcmalloc/src/addressmap-inl.h:214-222 | Finds the cluster of an address exactly if there is one. |
| AddressMap.AddressMap.FindOrCreateCluster | libs/tcmalloc/src/addressmap-inl.h:214-233 | A missing cluster is made, empty, and all others stay. |
| AddressMap.AddressMap.Find | libs/tcmalloc/src/addressmap-inl.h:289-306 | The stored value, none exactly if the key is not in the map. |
| AddressMap.AddressMap.Update | libs/tcmalloc/src/addressmap-inl.h:294-306 | Writing through the pointer found changes exactly that key's value. |
| AddressMap.AddressMap.Insert | libs/tcmalloc/src/addressmap-inl.h:308-338 | The map with the key set, whether it was there or not. |
| AddressMap.AddressMap.FindAndRemove | libs/tcmalloc/src/addressmap-inl.h:340-357 | The map without the key, and the value it had. |
| AddressMap.AddressMap.FindInside | libs/tcmalloc/src/addressmap-inl.h:359-403 | For disjoint ranges: finds the range the key points into exactly if it starts in the key's block or in a block ending at most the maximal size before the key; nothing is missed if that size bounds all ranges; ends. |
| AddressMap.BoundedNear | libs/tcmalloc/src/addressmap-inl.h:385-401 | With a bound on all sizes the early exits lose nothing. |
| AddressMap.ScanEmpty | libs/tcmalloc/src/addressmap-inl.h:369-390 | A block with an entry before the key, but no range holding it, rules out all earlier blocks. |
| Marking.HeapChecker.NewHook | libs/tcmalloc/src/heap-checker.cc:567-593 | The object is recorded and lies within the bounds kept; all other records stay. |
| Marking.HeapChecker.DeleteHook | libs/tcmalloc/src/heap-checker.cc:595-604 | The record is gone and nothing else. |
| Marking.HeapChecker.MarkAsLive | libs/tcmalloc/src/heap-profile-table.cc:263-270 | Marks the object, and says so, exactly if it is recorded and was not marked. |
| Marking.HeapChecker.FollowPointer | libs/tcmalloc/src/heap-checker.cc:1450-1497 | After looking at a word, what it points to is live; the address bounds drop no pointer into an object; a newly marked object, and only that, is put on the stack. |
| Marking.HeapChecker.LookThrough | libs/tcmalloc/src/heap-checker.cc:1409-1499 | Every aligned word of the piece has been followed. |
| Marking.HeapChecker.PopAndScan | libs/tcmalloc/src/heap-checker.cc:1397-1500 | One turn either marks objects or shortens the stack. |
| Marking.HeapChecker.IgnoreLiveObjects | libs/tcmalloc/src/heap-checker.cc:1392-1507 | Ends with an empty stack; exactly the objects that were live or are reachable from the stack's pieces are live; the live set is closed; each newly live object and its bytes are counted once. |
| Marking.FillDone | libs/tcmalloc/src/heap-checker.cc:1396-1501 | A fill with nothing pending has marked exactly what is reachable. |
| Marking.FillPush | libs/tcmalloc/src/heap-checker.cc:1470-1496 | Marking a found object keeps the fill's invariant. |
| Marking.FillMust | libs/tcmalloc/src/heap-checker.cc:1401-1406 | So does marking an object that must be on the heap. |
| Marking.FillScanned | libs/tcmalloc/src/heap-checker.cc:1409-1499 | A piece that was looked through need not be kept. |
| Marking.HeapChecker.Targets | libs/tcmalloc/src/heap-checker.cc:1450-1472 | A word points to one object at most and to none outside the bounds. |
| Regions.CutOut | libs/tcmalloc/src/heap-checker.cc:1189-1214 | Cutting a region out of a piece leaves exactly the addresses outside it. |
| Regions.Subtract | libs/tcmalloc/src/heap-checker.cc:1185-1219 | The same for all pieces. |
| Regions.MustSubtract | libs/tcmalloc/src/heap-checker.cc:1169-1183 | A region stays exactly if it holds no stack and its caller lies within a special range. |
| Regions.Filter | libs/tcmalloc/src/heap-checker.cc:1158-1221 | After all regions exactly the addresses in regions that must go are gone. |
| SizeMap.LgFloor | libs/tcmalloc/src/common.cc:63-75 | The exponent of the greatest power of two not above the size. |
| SizeMap.AlignmentForSize | libs/tcmalloc/src/common.cc:77-97 | The alignment is a power of two, at least the minimum from there on. |
| SizeMap.NumMoveSize | libs/tcmalloc/src/common.cc:99-119 | Never more than the setting nor than 8192. |
| SizeMap.MovesAtOnce | libs/tcmalloc/src/common.cc:101-116 | Unless the setting is smaller, as many objects as fit into 64K, but at least two. |
| SizeMap.NextCandidate | libs/tcmalloc/src/common.cc:139-141 | Adding its alignment to a size gives the next size to look at, a multiple of its own alignment; the last is the largest size. |
| SizeMap.PagesFor | libs/tcmalloc/src/common.cc:143-156 | The least span that wastes at most an eighth and holds enough objects; the loops end. |
| SizeMap.EnoughObjects | libs/tcmalloc/src/common.cc:143-155 | The page-adding loop can end exactly if the transfer setting is above -4; else its guard holds for every span size. |
| SizeMap.ComputeClasses | libs/tcmalloc/src/common.cc:135-176 | Every size looked at is served by the first class that fits it, with the span it would get by itself and the same number of objects, despite merging. |
| SizeMap.ClassesMerge | libs/tcmalloc/src/common.cc:158-169 | Merging a size into the last class keeps that. |
| SizeMap.ClassesAdd | libs/tcmalloc/src/common.cc:171-174 | So does a new class. |
| SizeMap.GridBoundary | libs/tcmalloc/src/common.h:190-197 | A class's size is the last of its index, so no index is shared by two classes. |
| SizeMap.CandidateOnGrid | libs/tcmalloc/src/common.h:167-173 | Class sizes are multiples of 8, and of 128 above 1024. |
| SizeMap.IndexedFits | libs/tcmalloc/src/common.cc:182-190 | A filled table gives every size its class. |
| SizeMap.SizeMap.FillTable | libs/tcmalloc/src/common.cc:182-190 | The table is filled so. |
| SizeMap.SizeMap.SizeClass | libs/tcmalloc/src/common.h:246-248 | The first class that is large enough, for every size up to the largest. |
| SizeMap.SizeMap.GetSizeClass | libs/tcmalloc/src/common.h:253-260 | A size has a class exactly if it is not too large. |
| SizeMap.SizeMap.DoubleCheck | libs/tcmalloc/src/common.cc:192-213 | The table's own check always passes. |
| SizeMap.SizeMap.CheckAlignment | libs/tcmalloc/src/common.cc:224-228 | Passes exactly if all aligned sizes below a page have equally aligned classes. |
| SizeMap.SizeMap.Init | libs/tcmalloc/src/common.cc:122-234 | Fails only for too many classes or an unaligned class; else every size maps to the first class that fits, with waste bounded and transfer counts set, all of which are positive exactly if the setting is. |
| Tiers.StepKeeps | libs/tcmalloc/src/central_freelist.cc:104-368 | Every step of every thread keeps the whole invariant. |
| Tiers.RunKeeps | libs/tcmalloc/src/central_freelist.cc:104-368 | So does every run. |
| Tiers.NextStep | libs/tcmalloc/src/central_freelist.cc:104-368 | Whatever a thread may do next continues the run: no lookup of a span or an object that the code relies on ever fails. |
| Tiers.OneLock | libs/tcmalloc/src/central_freelist.cc:189-214 | In no run does a thread hold two locks. |
| Tiers.CachesBounded | libs/tcmalloc/src/central_freelist.cc:167-229 | In every run 0 <= used slots <= cache size <= its maximum for each class, and the sizes' sum never exceeds the initial one. |
| Tiers.OnePlace | libs/tcmalloc/src/central_freelist.cc:104-149 | In every run each carved object is in exactly one place: its span, one slot, one chain, or the clients, whom `SmallObjects` tells apart. |
| Tiers.RefcountExact | libs/tcmalloc/src/central_freelist.cc:129-148 | In every run a span's reference count is the number of its objects that are out, and the counter is the sum of the span lists' lengths. |
| Tiers.NoneOut | libs/tcmalloc/src/central_freelist.cc:129-144 | When the reference count falls to 0 no other object of the span is out, so the span may go back to the page heap. |
| Tiers.NoDeadlock | libs/tcmalloc/src/central_freelist.cc:189-214 | No run gets stuck: some thread that is not idle can always go on. |
| Tiers.InsertingStep | libs/tcmalloc/src/central_freelist.cc:231-244 | Inserting stores a full batch if there is room, seeks room if it may, and else gives the chain back. |
| Tiers.ShrinkStep | libs/tcmalloc/src/central_freelist.cc:203-229 | Shrinking a victim gives up one slot, with its chain if it was full and forced. |
| Tiers.ResumedStep | libs/tcmalloc/src/central_freelist.cc:172-185 | A slot that was won is added only if the cache may still grow; it is never added twice. |
| Tiers.ReleaseStep | libs/tcmalloc/src/central_freelist.cc:104-149 | Giving one object back keeps counts and lists; the last one home retires the span. |
| Tiers.RemovingStep | libs/tcmalloc/src/central_freelist.cc:246-258 | Removing takes a whole slot if a batch is asked for and there is one. |
| Tiers.FetchStep | libs/tcmalloc/src/central_freelist.cc:260-318 | Fetching takes objects from the first span that has some, at most as many as asked for. |
| Tiers.PopulatingStep | libs/tcmalloc/src/central_freelist.cc:321-368 | A new span's objects are all free and counted, as many as its size holds. |
| Tiers.StartInv | libs/tcmalloc/src/central_freelist.cc:47-80 | The initial state satisfies the invariant. |
| SmallObjects.Carve | libs/tcmalloc/src/central_freelist.cc:346-361 | A span is carved into as many objects as its size divided by theirs, one after the other, all within its pages. |
| SmallObjects.ConfigFor | libs/tcmalloc/src/central_freelist.cc:47-80 | Every class's spans hold as many objects as fit, at least one; its transfer cache is limited to as many chains as a megabyte holds, at least one and at most 64. Class 0, which has no objects, has 64. |
| SmallObjects.ClassesUsable | libs/tcmalloc/src/common.cc:135-234 | Classes as the size map computes them, with a positive setting, meet what the central lists assert. |
| SmallObjects.InitStaticVars | libs/tcmalloc/src/static_vars.cc:81-92 | Once the size map is ready, with pages of 8K and a positive transfer setting, its sizes, spans and transfer counts suit the central lists and the threads' caches, which are set up by them class by class. |
| SmallObjects.StepExchanges | libs/tcmalloc/src/central_freelist.cc:231-280 | Every step of every thread is, for the objects that are out, one of the operations that thread caches rely on, or nothing; no more objects are handed out than were asked for, and none that is out. |
| SmallObjects.MoveKeeps | libs/tcmalloc/src/thread_cache.cc:117-209 | With the threads' lists on top, every step of every thread keeps all tiers in order. |
| SmallObjects.NeverTwice | libs/tcmalloc/src/thread_cache.h:366-406 | Every step gives the application only objects that it does not have, and takes only those it gives back. |
| SmallObjects.OnePlaceOverall | libs/tcmalloc/src/central_freelist.cc:104-149 | Conservation over all tiers: in every run of any number of threads every object of a live span is in exactly one of a span's list, a slot, a chain, one list of one thread, or the application, once. |
| ThreadCache.FreeList.TryPop | libs/tcmalloc/src/thread_cache.h:219-226 | Takes the first object, lowering the low-water mark with the length. |
| ThreadCache.FreeList.PopRange | libs/tcmalloc/src/thread_cache.h:237-242 | Takes the first n objects in order. |
| ThreadCache.FreeList.PushRange | libs/tcmalloc/src/thread_cache.h:232-235 | The chain goes before the list. |
| ThreadCache.ThreadCache.constructor | libs/tcmalloc/src/thread_cache.cc:78-104 | Empty lists, each allowed one object. |
| ThreadCache.ThreadCache.Allocate | libs/tcmalloc/src/thread_cache.h:366-384 | The client gains exactly the object returned, from the list if it has any, else from what the central cache hands out, and none only if that is nothing; the size stays the sum over the lists. |
| ThreadCache.ThreadCache.FetchFromCentralCache | libs/tcmalloc/src/thread_cache.cc:117-158 | Of what the central cache hands out the first object goes to the client, the others, fewer than a batch and than the limit, to the list, whose limit grows; nothing is found exactly if nothing is handed out. |
| ThreadCache.LongerLength | libs/tcmalloc/src/thread_cache.cc:142-156 | The length limit stays positive and small or a whole number of batches; it grows by one up to a batch and then by batches as far as lists may go. |
| ThreadCache.ThreadCache.ReleaseToCentralCache | libs/tcmalloc/src/thread_cache.cc:191-209 | Exactly the first n objects, or all, leave the list; the size falls by their bytes. |
| ThreadCache.ThreadCache.ListTooLong | libs/tcmalloc/src/thread_cache.cc:160-188 | Exactly a batch, or all, goes back; the limit grows by one below a batch, and above it falls by a batch the fourth time the list is too long; the client's objects are untouched. |
| ThreadCache.ThreadCache.ScavengeList | libs/tcmalloc/src/thread_cache.cc:219-240 | Half of the objects that were not needed go back, the limit falls by a batch but not below one; invariants and the client's objects are kept. |
| ThreadCache.IdleDrains | libs/tcmalloc/src/thread_cache.cc:213-240 | Scavenging an idle list leaves at most half of its objects, rounded up, and repeated often enough none. |
| ThreadCache.ThreadCache.Cleanup | libs/tcmalloc/src/thread_cache.cc:106-113 | All lists are empty and the size is 0. |
| ThreadCache.SharedTook | libs/tcmalloc/src/thread_cache.h:366-384 | An object one cache gives out is on no cache's list, and all lists stay disjoint. |
| ThreadCache.SharedGave | libs/tcmalloc/src/thread_cache.h:386-406 | An object given back to one cache was on no other's list, and all lists stay disjoint. |
| ThreadCache.ThreadHeaps.Allocate | libs/tcmalloc/src/thread_cache.h:366-384 | The application gets an object that it did not have and that is then on no cache's list; it gets none only if the central cache has none. |
| ThreadCache.ThreadHeaps.Deallocate | libs/tcmalloc/src/thread_cache.h:386-406 | The application loses exactly this object, which it must have; the object joins its list unless list or cache are too large; all caches and the shared room stay right. |
| ThreadCache.ThreadHeaps.Scavenge | libs/tcmalloc/src/thread_cache.cc:212-243 | Every list of the cache is scavenged; all caches and the shared room stay right, and the application's objects are as they were. |
| ThreadCache.ThreadHeaps.IncreaseCacheLimitLocked | libs/tcmalloc/src/thread_cache.cc:250-278 | Room moves to the cache from the unclaimed room if there is any, else from one other cache that has more than the minimum; the total stays. With at most ten caches it gives up only if no other cache has more than the minimum. |
| ThreadCache.ThreadHeaps.InitRoom | libs/tcmalloc/src/thread_cache.cc:78-91 | A new cache gets some room, at least the minimum, even if that leaves less than none unclaimed. |
| ThreadCache.ThreadHeaps.NewHeap | libs/tcmalloc/src/thread_cache.cc:407-423 | A new cache with empty lists; room claimed and unclaimed make up the whole; the next cache to steal from is live or null; all lists stay right. |
| ThreadCache.ThreadHeaps.DeleteCache | libs/tcmalloc/src/thread_cache.cc:468-484 | The same after a cache is emptied and removed; the others keep their order, the next one to steal from changes only if it was the one removed, and the application keeps its objects. |
| ThreadCache.ThreadHeaps.RecomputePerThreadCacheSize | libs/tcmalloc/src/thread_cache.cc:486-507 | The same after dividing the room anew; each cache shrinks in proportion to the share of each, if that has fallen. |
| ThreadCache.ShrunkLess | libs/tcmalloc/src/thread_cache.cc:494-503 | No cache gets more or less than nothing, and all lose some if the share has fallen. |
| ThreadCache.ThreadHeaps.SetOverallThreadCacheSize | libs/tcmalloc/src/thread_cache.cc:520-527 | The whole is the clipped new size; the share of each is divided anew, and each cache shrinks in proportion if that has fallen. |
| Sockets.SocketInput.Resize | socket/socket_input.cpp:42-67 | The contents stay and move to the front of a larger buffer. |
| Sockets.SocketInput.Length | socket/socket_input.cpp:69-75 | The number of bytes held. |
| Sockets.SocketInput.Fetch | socket/socket_input.cpp:77-94 | Takes the first bytes across the end of the buffer, or does nothing if there are too few. |
| Sockets.SocketInput.Skip | socket/socket_input.cpp:263-267 | Drops the first bytes, or does nothing if there are too few. |
| Sockets.SocketInput.Feed | socket/socket_input.cpp:96-261 | Unless the input is reset exactly the bytes read are appended. It is reset only if the buffer would have to grow beyond the maximum, always so if each read delivers all it is asked for, and then all bytes are lost. With bytes pending the result is 0 exactly if the buffer was full and is not reset; reading all leaves bytes only with the contents at the front. The result is an error exactly if the buffer was not full and a read failed. |
| Sockets.SocketInput.HalfFits | socket/socket_input.cpp:117-124 | With no more than half of the maximum held and pending the input is never reset. |
| Sockets.SocketInput.FeedFront | socket/socket_input.cpp:102-137 | The same for contents at the front of the buffer. |
| Sockets.SocketInput.FeedAround | socket/socket_input.cpp:138-228 | The same when feeding goes around the end. |
| Sockets.SocketInput.FeedBetween | socket/socket_input.cpp:230-258 | The same when the contents go around the end. |
| Sockets.SocketOutput.Write | socket/socket_output.cpp:30-56 | Appends the bytes, growing the buffer if need be; copies beyond the buffer exactly if the write is not within bounds. |
| Sockets.SocketOutput.FrontInBounds | socket/socket_output.cpp:40-52 | With the contents at the front a write never leaves the buffer. |
| Sockets.SocketOutput.SomeOverrun | socket/socket_output.cpp:30-52 | Some write runs past the end of the buffer exactly if the head is at 3 or above and the contents do not go around. |
| Sockets.SocketOutput.Resize | socket/socket_output.cpp:116-141 | The contents stay and move to the front of a larger buffer. |
| Sockets.SocketOutput.Refresh | socket/socket_output.cpp:58-103 | What was sent and what is left are what was there; it fails exactly if a send fails, else leaves nothing and moves the head to the front. |
| Framing.Frame | connector/connector.cpp:72-91 | Its own size, the id cut to 16 bits, and the payload. |
| Framing.FrameRoundTrip | connector/connector.cpp:50-64 | A frame is parsed back; its id comes back exactly if it has 16 bits. |
| Framing.StreamRoundTrip | connector/connector.cpp:40-70 | A stream holds exactly its packets, one frame after the other; an unfinished frame stays. |
| Framing.AnyChunking | connector/connector.cpp:40-70 | However a stream is cut, taking all whole frames after each piece gives the same packets. |
| Framing.DeliveredExactly | connector/connector.cpp:40-97 | Taking all whole frames that have arrived after each piece recovers exactly what was sent, under any chunking; `SentIsReceived` says when the code's loop, which takes one a turn, does so. |
| Framing.Act | connector/connector.cpp:50-64 | Parsing takes the first packet exactly if a whole frame is there, uses a negative size exactly if no header is there or it states less than its own size, and else loses the header. |
| Framing.CutFrame | connector/connector.cpp:50-64 | A frame of which only a part was read is never parsed: with its header there, that is lost and the contents are undefined; without it, a negative size is used. |
| Framing.LoopExact | connector/connector_thread.cpp:28-34 | If every turn took a packet, these are the first packets of all bytes, in order, and what is kept holds the others. |
| Framing.LoopTimely | connector/connector_thread.cpp:28-34 | In any run of the unguarded loop every turn takes a packet exactly if after each read at least as many whole packets have arrived as there were reads. |
| Framing.SentIsReceived | connector/connector.cpp:40-97 | Packets sent one after the other and read turn by turn by a new connection: every turn takes a packet exactly if after each read the bytes of as many packets have arrived as there were reads; then these are the first packets sent, in order, and the bytes left hold exactly the others. |
| Framing.Connector.Message | connector/connector.cpp:72-91 | The bytes laid out are the frame. |
| Framing.Connector.SendPacket | connector/connector.cpp:72-97 | The frame is appended to the output; it overruns the buffer exactly if the write is not within bounds. |
| Framing.Connector.SendAll | connector/connector.cpp:72-97 | Packets sent one after the other leave exactly their stream in the output. |
| Framing.Connector.ExecParse | connector/connector.cpp:50-64 | Fetching header and contents from the ring does what `Act` says of the bytes held. |
| Framing.Connector.Turn | connector/connector_thread.cpp:28-113 | Reads and then parses without a guard. The connection is closed exactly if a read fails or nothing is pending, and then nothing is parsed. Else some bytes are read, and unless the input overflows the outcome is that of parsing all bytes held. On an overflow with all reads delivering the turn ends in copying beyond the buffers. If the connection goes on, the input has room: the loop never finds it full. |
| Framing.Connector.Receive | connector/connector_thread.cpp:28-113 | The loop, with bytes arriving in any pieces, until the connection is closed, exactly if a read fails or finds nothing, or bytes beyond the buffers are copied. Up to the last turn the outcomes are those of parsing the bytes read turn by turn, and that one's too while no more than half of the maximum is to be read. Every turn then takes a packet exactly if it was not closed and the reads were timely; these are the first packets of all bytes, in order. |
| Framing.PacketLost | socket/socket_input.cpp:117-124 | A packet of a megabyte, sent to a new connection, is lost: the input is reset, and parsing it copies beyond the end of the buffers. |

## Left out

- Descriptors as separate objects: span records live in an arena field of the heap, keyed by address, and pointers are addresses; recycled addresses and stale pointers are kept, updates of single fields of a record are not.
- Pointer links inside lists: doubly linked span lists, singly linked object lists and hash chains are sequences.
- `const int extra` in `page_heap.cc:223` and `:264`: the narrowing of lengths above 2^31 pages.
- `GrowHeap` when the page map cannot be extended after memory was obtained.
- Coalescing while aggressive decommit is on: it need not hold then.
- PageHeap.PageHeap.IncrementalScavenge: rounding of `double`; the release rate is a real number.
- Page heap statistics that only count calls, growth stack traces, and the fraction of a range in use.
- Allocator.Allocator.Free: freeing with a size hint skips the lookup; sampling and its stack traces.
- The locks between batches in `IterateOverRanges`: the heap is taken not to change.
- SizeMap.SizeMap.Init: class tables longer than 96 are written past their end before the length is checked; here the tables grow and the check comes after.
- SizeMap.SizeMap.CheckAlignment: whether the check passes for a given build is a computation on fixed numbers and not proved in general.
- Tiers.OneLock: the fork handlers, which take all locks.
- Effects of weak memory on the unlocked reads in `ShrinkCache`: each read is one step.
- ThreadCache.ThreadHeaps.RecomputePerThreadCacheSize: rounding of `double`; the ratio is a real number.
- The 32-bit width of cache sizes, lengths and byte counts.
- Thread registration, emergency malloc, sampling and thread-local storage.
- AddressMap.AddressMap.FindInside: recycling of entries and batches of entries; entries are values.
- Iteration over the address map and the leak report made from it; stack traces kept with allocations.
- Marking.HeapChecker.IgnoreLiveObjects: requires pieces of memory that end at least one alignment step before the top of the address space, and live objects that point only to live objects; unreadable memory is not modelled.
- `MemoryRegionMap`, whose regions are parameters of `Regions.Filter`.
- Sockets.SocketInput.Feed: no bytes arrive during one call; the receive call without pending bytes may report the end of the stream or an error.
- Sockets.SocketOutput.Write: what memory holds after copying beyond the end of the buffer.
- Framing.Connector.ExecParse: what happens after a negative size was used, and the contents of a garbled packet; payloads are opaque bytes, and packet ids that no factory knows are not told apart.
- PageHeap.PageHeap.SearchFreeAndLargeLists: without room under the limit, when small requests are served although memory must be released first.
- SmallObjects.MoveKeeps: the limits of the threads' lists, which decide when objects are fetched and given back; any choice of these is covered.
- epoll, accepting connections, UDP, logging, flags, thread pools and packet factories.
