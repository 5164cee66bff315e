/** The malloc layer over the page heap: page-level allocation and freeing, aligned
    allocation, and the size-class cache that must agree with the page map. */
module Allocator {
  import opened Arith
  import opened PageSpace
  import opened Words
  import H = PageHeap
  import PackedCache

  const SIZE_LIMIT: int := 0x1_0000_0000_0000_0000
  const CLASS_LIMIT: nat := 96

  // ---- Cache coherence ----

  /** The cache knows nothing of page p or gives it class c. Class 0 is never cached. */
  ghost predicate Agrees(cache: PackedCache.Cache, p: int, c: nat)
    requires 0 <= p
    reads cache
  {
    cache.TryGet(ToWord(p)) == PackedCache.Miss || (c != 0 && cache.TryGet(ToWord(p)) == PackedCache.Hit(ToWord(c)))
  }

  /** Page p of a used span may hold the start of an object that can be freed. */
  ghost predicate HoldsStart(r: Rec, p: int) { r.Covers(p) && (p == r.start || r.sizeClass != 0) }

  ghost predicate InRange(used: Arena) {
    forall k | k in used :: 1 <= used[k].start && 1 <= used[k].length && used[k].End() <= WORD_RANGE && used[k].sizeClass < CLASS_LIMIT
  }

  /** For every page that holds the start of a freeable object, a cache hit is the
      owning span's size class. Entries of other pages may be stale. */
  ghost predicate Coherent(used: Arena, cache: PackedCache.Cache)
    requires InRange(used)
    reads cache
  {
    forall k, p {:trigger HoldsStart(used[k], p)} | k in used && HoldsStart(used[k], p) :: Agrees(cache, p, used[k].sizeClass)
  }

  /** Cache hits occur only for pages the heap has. */
  ghost predicate OnlyHeapPages(pages: set<int>, cache: PackedCache.Cache)
    reads cache
  {
    forall p {:trigger ToWord(p)} | 0 <= p < WORD_RANGE && p !in pages :: cache.TryGet(ToWord(p)) == PackedCache.Miss
  }

  /** Words of class numbers are small enough to be packed. */
  lemma ClassWord(c: nat)
    requires c < CLASS_LIMIT
    ensures ToWord(c) < PackedCache.VALUE_LIMIT
  {
    assert Pow2(2) == 4 && Pow2(3) == 8;
    Pow2Sum(3, 3);
    Pow2Sum(6, 1);
    WordBound(c, 7);
    OnesEnd();
  }

  lemma WordsDiffer(p: nat, q: nat)
    requires p < WORD_RANGE && q < WORD_RANGE && p != q
    ensures ToWord(p) != ToWord(q)
  {
    WordRoundTrip(p);
    WordRoundTrip(q);
  }

  // ---- Pages and alignment ----

  /** The number of pages that hold the given bytes. */
  function Pages(bytes: int): (n: int)
    requires 0 <= bytes
    ensures PAGE_SIZE * n - PAGE_SIZE < bytes <= PAGE_SIZE * n
  {
    bytes / PAGE_SIZE + (if bytes % PAGE_SIZE > 0 then 1 else 0)
  }

  /** Page addresses are aligned to a pages exactly when their page numbers are. */
  lemma AlignedPage(x: int, a: int)
    requires a >= 1
    ensures (PAGE_SIZE * x) % (PAGE_SIZE * a) == PAGE_SIZE * (x % a)
  {
    assert PAGE_SIZE * x == PAGE_SIZE * (a * (x / a) + x % a) == (PAGE_SIZE * a) * (x / a) + PAGE_SIZE * (x % a);
    ModUnique(PAGE_SIZE * x, PAGE_SIZE * a, x / a, PAGE_SIZE * (x % a));
  }

  /** A power of two above the page size is a whole number of pages, at least two. */
  lemma AlignInPages(align: int, e: nat)
    requires align == Pow2(e) > PAGE_SIZE
    ensures e > 13 && align == PAGE_SIZE * Pow2(e - 13) && Pow2(e - 13) >= 2
  {
    Pow2Values();
    if e <= 13 {
      Pow2Monotone(e, 13);
    } else {
      Pow2Sum(13, e - 13);
      Pow2Monotone(1, e - 13);
    }
  }

  /** What freeing a pointer amounts to. */
  datatype Freed = InvalidPointer | SmallObject(cl: nat) | FreedPages

  class Allocator {
    const heap: H.PageHeap
    const cache: PackedCache.Cache

    ghost predicate Valid()
      reads heap, cache
    {
      && heap.Valid()
      && InRange(Used(heap.spans))
      && Coherent(Used(heap.spans), cache)
      && OnlyHeapPages(heap.owner.Keys, cache)
    }

    constructor (limit: nat, system: H.System)
      ensures Valid() && fresh(heap) && fresh(cache) && Used(heap.spans) == map[]
    {
      heap := new H.PageHeap(limit, system);
      cache := new PackedCache.Cache();
    }

    /** Fewer used spans, or the same cache over a grown heap, stay coherent. */
    lemma CoherentFrame(used: Arena, used': Arena)
      requires InRange(used) && Coherent(used, cache)
      requires forall k | k in used' :: k in used && used'[k] == used[k]
      ensures InRange(used') && Coherent(used', cache)
    {
      forall k, p | k in used' && HoldsStart(used'[k], p) ensures Agrees(cache, p, used'[k].sizeClass) {
        assert HoldsStart(used[k], p);
      }
    }

    /** Hands out a span as a page-aligned block: its first page must not hit. */
    method SpanToMallocResult(span: SpanPtr, ghost used: Arena)
      requires heap.Valid() && span in Used(heap.spans) && heap.spans[span].sizeClass == 0
      requires span !in used && Used(heap.spans) == used[span := heap.spans[span]]
      requires InRange(used) && Coherent(used, cache) && OnlyHeapPages(heap.owner.Keys, cache)
      modifies cache
      ensures Valid()
    {
      heap.SpanAddressable(span);
      var p := heap.spans[span].start;
      ghost var r := heap.spans[span];
      cache.Invalidate(ToWord(p));
      forall k, q | k in Used(heap.spans) && HoldsStart(Used(heap.spans)[k], q) ensures Agrees(cache, q, Used(heap.spans)[k].sizeClass) {
        if k != span {
          assert HoldsStart(used[k], q);
        }
      }
    }

    /** With room under the heap limit a request of n pages fails only if no free span is
        long enough; without a limit only if also the system refuses the memory. */
    twostate predicate FailsOnlyIfDenied(span: SpanPtr, n: int)
      reads heap
    {
      span == NULL ==>
        && !old(heap.Room(n) && FitsFree(heap.spans, n))
        && (heap.limit == 0 ==> n > H.MAX_VALID_PAGES || heap.Denied(old(heap.calls), heap.calls, n))
    }

    /** Allocates n pages as one block. */
    method MallocPages(n: int) returns (span: SpanPtr)
      requires Valid() && n >= 1
      modifies heap, cache
      ensures Valid()
      ensures FailsOnlyIfDenied(span, n)
      ensures span == NULL ==> Used(heap.spans) == Used(old(heap.spans))
      ensures span != NULL ==>
        && span !in Used(old(heap.spans)) && span in heap.spans
        && Used(heap.spans) == Used(old(heap.spans))[span := Rec(heap.spans[span].start, n, InUse, 0)]
    {
      ghost var used := Used(heap.spans);
      span := heap.New(n);
      if span == NULL {
        return;
      }
      assert span in Used(heap.spans);
      SpanToMallocResult(span, used);
    }

    /** Takes npages pages for small objects of class cl and caches the class of each page. */
    method PopulateSpan(cl: nat, npages: int) returns (span: SpanPtr)
      requires Valid() && 0 < cl < CLASS_LIMIT && npages >= 1
      modifies heap, cache
      ensures Valid()
      ensures FailsOnlyIfDenied(span, npages)
      ensures span == NULL ==> Used(heap.spans) == Used(old(heap.spans))
      ensures span != NULL ==>
        && span !in Used(old(heap.spans)) && span in heap.spans
        && Used(heap.spans) == Used(old(heap.spans))[span := Rec(heap.spans[span].start, npages, InUse, cl)]
    {
      hide H.PageHeap.Valid;
      ghost var used := Used(heap.spans);
      span := heap.New(npages);
      if span == NULL {
        return;
      }
      assert span in Used(heap.spans);
      heap.RegisterSizeClass(span, cl);
      assert span in Used(heap.spans);
      CacheClass(span, cl, used);
    }

    /** SetCachedSizeClass: page p hits with class cl; any other page keeps its entry or
        loses it. */
    method SetCachedSizeClass(p: int, cl: nat)
      requires 0 <= p < WORD_RANGE && cl < CLASS_LIMIT
      modifies cache
      ensures cache.TryGet(ToWord(p)) == PackedCache.Hit(ToWord(cl))
      ensures forall q {:trigger ToWord(q)} | 0 <= q < WORD_RANGE && q != p ::
        cache.TryGet(ToWord(q)) == PackedCache.Miss || cache.TryGet(ToWord(q)) == old(cache.TryGet(ToWord(q)))
    {
      ClassWord(cl);
      cache.Put(ToWord(p), ToWord(cl));
      forall q | 0 <= q < WORD_RANGE && q != p ensures ToWord(q) != ToWord(p) {
        WordsDiffer(p, q);
      }
    }

    /** Caching a page's class keeps the other pages' entries coherent. */
    method CachePage(p: int, cl: nat, ghost used: Arena, ghost pages: set<int>)
      requires 0 <= p < WORD_RANGE && 0 < cl < CLASS_LIMIT && p in pages
      requires InRange(used) && Coherent(used, cache) && OnlyHeapPages(pages, cache)
      requires forall k | k in used && HoldsStart(used[k], p) :: used[k].sizeClass == cl
      modifies cache
      ensures Coherent(used, cache) && OnlyHeapPages(pages, cache) && Agrees(cache, p, cl)
      ensures forall q {:trigger ToWord(q)} | 0 <= q < WORD_RANGE && q != p ::
        cache.TryGet(ToWord(q)) == PackedCache.Miss || cache.TryGet(ToWord(q)) == old(cache.TryGet(ToWord(q)))
    {
      SetCachedSizeClass(p, cl);
    }

    /** The eager caching loop of Populate. */
    method CacheClass(span: SpanPtr, cl: nat, ghost used: Arena)
      requires heap.Valid() && 0 < cl < CLASS_LIMIT && span in Used(heap.spans) && heap.spans[span].sizeClass == cl
      requires span !in used && Used(heap.spans) == used[span := heap.spans[span]]
      requires InRange(used) && Coherent(used, cache) && OnlyHeapPages(heap.owner.Keys, cache)
      modifies cache
      ensures Valid()
    {
      hide H.PageHeap.Valid;
      ghost var r := heap.spans[span];
      ghost var pages := heap.owner.Keys;
      heap.SpanAddressable(span);
      OwnSpan(span);
      var start, n := heap.spans[span].start, heap.spans[span].length;
      forall k | k in used ensures k in heap.spans && heap.spans[k] == used[k] {
        assert k in Used(heap.spans);
      }
      OthersApart(span, used);
      for i := 0 to n
        invariant heap.Valid() && OnlyHeapPages(pages, cache) && Coherent(used, cache)
        invariant forall q {:trigger ToWord(q)} | start <= q < start + i :: Agrees(cache, q, cl)
      {
        label before:
        CachePage(start + i, cl, used, pages);
        forall q | start <= q < start + i ensures Agrees(cache, q, cl) {
          assert old@before(Agrees(cache, q, cl));
          assert cache.TryGet(ToWord(q)) == PackedCache.Miss || cache.TryGet(ToWord(q)) == old@before(cache.TryGet(ToWord(q)));
        }
      }
      forall k, q | k in Used(heap.spans) && HoldsStart(Used(heap.spans)[k], q) ensures Agrees(cache, q, Used(heap.spans)[k].sizeClass) {
        if k != span {
          assert HoldsStart(used[k], q);
        }
      }
    }

    /** A live span's pages are pages of the heap. */
    lemma OwnSpan(span: SpanPtr)
      requires heap.Valid() && span in heap.spans
      ensures forall q | heap.spans[span].start <= q < heap.spans[span].End() :: q in heap.owner
    {
      forall q | heap.spans[span].start <= q < heap.spans[span].End() ensures q in heap.owner {
        assert heap.spans[span].Covers(q);
      }
    }

    /** Different used spans have no page in common. */
    lemma OthersApart(span: SpanPtr, used: Arena)
      requires heap.Valid() && span in heap.spans && span !in used
      requires forall k | k in used :: k in heap.spans && heap.spans[k] == used[k]
      ensures forall k, q {:trigger HoldsStart(used[k], q)} | k in used && heap.spans[span].Covers(q) :: !HoldsStart(used[k], q)
    {
    }

    // ---- Freeing ----

    /** Gives a used span back. The cache may keep entries for its pages. */
    method FreeSpan(span: SpanPtr)
      requires Valid() && span in Used(heap.spans)
      modifies heap
      ensures Valid() && Used(heap.spans) == Used(old(heap.spans)) - {span}
    {
      hide H.PageHeap.Valid;
      ghost var used := Used(heap.spans);
      heap.Delete(span);
      CoherentFrame(used, Used(heap.spans));
    }

    /** Frees the block that starts in page p, as far as the choice of what to do goes:
        a small object goes to the lists of its class, a large block's span is freed. The
        class found, in the cache or through the page map, is that of the owning span. */
    method Free(p: int) returns (r: Freed)
      requires Valid() && 0 <= p < WORD_RANGE
      requires p in heap.owner ==> heap.owner[p] in Used(heap.spans) && HoldsStart(heap.spans[heap.owner[p]], p)
      modifies heap, cache
      ensures Valid()
      ensures p !in old(heap.owner) <==> r == InvalidPointer
      ensures p !in old(heap.owner) ==> unchanged(heap) && unchanged(cache)
      ensures p in old(heap.owner) ==>
        var k := old(heap.owner)[p];
        && r == (if old(heap.spans[k].sizeClass) == 0 then FreedPages else SmallObject(old(heap.spans[k].sizeClass)))
        && Used(heap.spans) == (if r == FreedPages then Used(old(heap.spans)) - {k} else Used(old(heap.spans)))
    {
      hide H.PageHeap.Valid;
      ghost var used := Used(heap.spans);
      if p in heap.owner {
        ghost var k := heap.owner[p];
        heap.DescriptorFound(k, p);
        heap.SpanAddressable(k);
        assert HoldsStart(used[k], p);
        assert Agrees(cache, p, used[k].sizeClass);
        WordRoundTrip(used[k].sizeClass);
      } else {
        heap.DescriptorMissing(p);
      }
      match cache.TryGet(ToWord(p)) {
        case Hit(w) =>
          return SmallObject(FromWord(w));
        case Miss =>
          var span := heap.GetDescriptor(p);
          if span == NULL {
            return InvalidPointer;
          }
          var cl := heap.spans[span].sizeClass;
          if cl == 0 {
            FreeSpan(span);
            return FreedPages;
          }
          OwnersApart(p);
          CachePage(p, cl, used, heap.owner.Keys);
          return SmallObject(cl);
      }
    }

    /** A page is covered by its owner alone. */
    lemma OwnersApart(p: int)
      requires heap.Valid() && p in heap.owner
      ensures forall k | k in Used(heap.spans) && HoldsStart(Used(heap.spans)[k], p) :: k == heap.owner[p]
    {
      forall k | k in Used(heap.spans) && HoldsStart(Used(heap.spans)[k], p) ensures k == heap.owner[p] {
        assert heap.spans[k].Covers(p);
      }
    }

    // ---- Aligned allocation ----

    /** The least number of pages to skip from `start` to an address aligned to `align`. */
    method AlignSkip(start: int, align: int, ghost a: int) returns (skip: int)
      requires a >= 1 && align == PAGE_SIZE * a
      ensures 0 <= skip < a && (PAGE_SIZE * (start + skip)) % align == 0
    {
      ghost var gap := if start % a == 0 then 0 else a - start % a;
      ModUnique(start + gap, a, start / a + (if gap == 0 then 0 else 1), 0);
      AlignedPage(start + gap, a);
      skip := 0;
      while (PAGE_SIZE * (start + skip)) % align != 0
        invariant 0 <= skip <= gap
        decreases gap - skip
      {
        skip := skip + 1;
      }
    }

    /** Gives the first `skip` pages of a used span back; the rest remains. */
    method TrimHead(span: SpanPtr, skip: int, ghost used: Arena) returns (r: SpanPtr)
      requires heap.Valid() && span in heap.spans && span !in used && 0 < skip < heap.spans[span].length
      requires heap.spans[span].location == InUse && heap.spans[span].sizeClass == 0
      requires Used(heap.spans) == used[span := heap.spans[span]]
      modifies heap
      ensures heap.Valid() && r !in used && r in heap.spans && heap.owner.Keys == old(heap.owner.Keys)
      ensures heap.spans[r] == Tail(old(heap.spans[span]), skip, InUse)
      ensures Used(heap.spans) == used[r := heap.spans[r]]
    {
      hide H.PageHeap.Valid, NoSmaller, Coalesced, FitsFree;
      UsedKeys(heap.spans, used, span);
      ghost var whole := heap.spans[span];
      r := heap.Split(span, skip);
      assert span in Used(heap.spans);
      heap.Delete(span);
      assert Used(heap.spans) == used[r := Tail(whole, skip, InUse)];
      assert r in Used(heap.spans);
    }

    /** Gives back all but the first `needed` pages of a used span. */
    method TrimTail(span: SpanPtr, needed: int, ghost used: Arena)
      requires heap.Valid() && span in heap.spans && span !in used && 0 < needed < heap.spans[span].length
      requires heap.spans[span].location == InUse && heap.spans[span].sizeClass == 0
      requires Used(heap.spans) == used[span := heap.spans[span]]
      modifies heap
      ensures heap.Valid() && span in heap.spans && heap.owner.Keys == old(heap.owner.Keys)
      ensures heap.spans[span] == Head(old(heap.spans[span]), needed)
      ensures Used(heap.spans) == used[span := heap.spans[span]]
    {
      hide H.PageHeap.Valid, NoSmaller, Coalesced, FitsFree;
      UsedKeys(heap.spans, used, span);
      ghost var whole := heap.spans[span];
      var trailer := heap.Split(span, needed);
      assert trailer in Used(heap.spans);
      heap.Delete(trailer);
      assert Used(heap.spans) == used[span := Head(whole, needed)];
      assert span in Used(heap.spans);
    }

    /** Cuts a used span down to `needed` pages after `skip` pages; the head and the
        trailer go back to the heap. */
    method Trim(span: SpanPtr, skip: int, needed: int, ghost used: Arena) returns (r: SpanPtr)
      requires heap.Valid() && 0 <= skip && 1 <= needed && span !in used
      requires span in heap.spans && heap.spans[span].location == InUse && heap.spans[span].sizeClass == 0
      requires skip + needed <= heap.spans[span].length && Used(heap.spans) == used[span := heap.spans[span]]
      modifies heap
      ensures heap.Valid() && r != NULL && r !in used && r in heap.spans && heap.owner.Keys == old(heap.owner.Keys)
      ensures heap.spans[r] == Rec(old(heap.spans[span].start) + skip, needed, InUse, 0)
      ensures Used(heap.spans) == used[r := heap.spans[r]]
    {
      hide H.PageHeap.Valid, Used;
      r := span;
      if skip > 0 {
        r := TrimHead(span, skip, used);
      }
      if heap.spans[r].length > needed {
        TrimTail(r, needed, used);
      }
      heap.SpanAddressable(r);
    }

    static lemma UsedKeys(spans: Arena, used: Arena, span: SpanPtr)
      requires span in spans && Used(spans) == used[span := spans[span]]
      ensures forall k | k in used :: k in spans
    {
      forall k | k in used ensures k in spans {
        assert k in Used(spans);
      }
    }

    /** Allocates a block aligned to a power of two above the page size. It is backed by
        exactly the pages it needs; all other pages taken for it are free again. */
    method MemalignPages(align: int, ghost e: nat, size: int) returns (span: SpanPtr)
      requires Valid() && align == Pow2(e) > PAGE_SIZE && align < SIZE_LIMIT && 0 <= size < SIZE_LIMIT
      modifies heap, cache
      ensures Valid()
      ensures size + align >= SIZE_LIMIT ==> span == NULL && unchanged(heap) && unchanged(cache)
      ensures size + align < SIZE_LIMIT ==> FailsOnlyIfDenied(span, Pages((if size == 0 then 1 else size) + align))
      ensures span == NULL ==> Used(heap.spans) == Used(old(heap.spans))
      ensures span != NULL ==>
        && span !in Used(old(heap.spans)) && span in heap.spans
        && heap.spans[span] == Rec(heap.spans[span].start, Pages(if size == 0 then 1 else size), InUse, 0)
        && Used(heap.spans) == Used(old(heap.spans))[span := heap.spans[span]]
        && (PAGE_SIZE * heap.spans[span].start) % align == 0
    {
      hide H.PageHeap.Valid;
      if (size + align) % SIZE_LIMIT < size {
        return NULL;
      }
      var bytes := if size == 0 then 1 else size;
      AlignInPages(align, e);
      ghost var a := Pow2(e - 13);
      ghost var used := Used(heap.spans);
      var alloc := Pages(bytes + align);
      span := heap.New(alloc);
      if span == NULL {
        return;
      }
      assert span in Used(heap.spans);
      span := Align(span, align, a, Pages(bytes), used);
      assert span in Used(heap.spans);
      SpanToMallocResult(span, used);
    }

    /** Cuts a used span down to `needed` pages from an aligned address on. */
    method Align(span: SpanPtr, align: int, ghost a: int, needed: int, ghost used: Arena) returns (r: SpanPtr)
      requires heap.Valid() && span !in used && a >= 1 && align == PAGE_SIZE * a && 1 <= needed
      requires span in heap.spans && heap.spans[span].location == InUse && heap.spans[span].sizeClass == 0
      requires a - 1 + needed <= heap.spans[span].length && Used(heap.spans) == used[span := heap.spans[span]]
      modifies heap
      ensures heap.Valid() && r != NULL && r !in used && r in heap.spans && heap.owner.Keys == old(heap.owner.Keys)
      ensures heap.spans[r] == Rec(heap.spans[r].start, needed, InUse, 0) && (PAGE_SIZE * heap.spans[r].start) % align == 0
      ensures Used(heap.spans) == used[r := heap.spans[r]]
    {
      hide H.PageHeap.Valid, Used;
      var skip := AlignSkip(heap.spans[span].start, align, a);
      r := Trim(span, skip, needed, used);
    }
  }
}
