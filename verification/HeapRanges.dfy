/** Walking the heap's spans through the page map. */
module HeapRanges {
  import opened PageSpace
  import H = PageHeap
  import RadixMap

  datatype Kind = RangeInUse | RangeFree | RangeUnmapped

  datatype Range = Range(address: int, length: int, kind: Kind)

  function RangeOf(r: Rec): Range {
    Range(PAGE_SIZE * r.start, PAGE_SIZE * r.length,
          match r.location case InUse => RangeInUse case OnNormal => RangeFree case OnReturned => RangeUnmapped)
  }

  /** Walks start at page 1 and go on where a span ends. */
  ghost predicate Boundary(spans: Arena, page: int) {
    page == 1 || exists k | k in spans :: spans[k].End() == page
  }

  /** The spans that end at or before a page. */
  ghost function Before(spans: Arena, page: int): set<SpanPtr> {
    set k | k in spans && spans[k].End() <= page
  }

  ghost predicate FirstEntry(pageMap: PageOwner, page: int, q: int) {
    q >= page && q in pageMap && forall p | page <= p < q :: p !in pageMap
  }

  /** From a boundary, the first page map entry is the first page of the next span, and
      it is right even if entries inside spans are stale. */
  lemma NextStartsSpan(spans: Arena, owner: PageOwner, pageMap: PageOwner, page: int, q: int)
    requires Geometry(spans, owner, pageMap) && Boundary(spans, page) && FirstEntry(pageMap, page, q)
    ensures var k := pageMap[q]; k in spans && spans[k].start == q && spans[k].length >= 1
    ensures Boundary(spans, spans[pageMap[q]].End())
    ensures Before(spans, spans[pageMap[q]].End()) == Before(spans, page) + {pageMap[q]}
    ensures pageMap[q] !in Before(spans, page)
  {
    var k := owner[q];
    assert spans[k].Covers(spans[k].start);
    if spans[k].start < page {
      StraddlesNot(spans, owner, page, k);
      assert false;
    }
    forall x ensures x in Before(spans, spans[k].End()) <==> x in Before(spans, page) || x == k {
      if x in spans && page < spans[x].End() <= spans[k].End() {
        if spans[x].start < page {
          StraddlesNot(spans, owner, page, x);
          assert false;
        } else {
          assert spans[x].Covers(spans[x].start);
          assert spans[k].Covers(spans[x].start);
        }
      }
    }
  }

  /** No span lies across a boundary. */
  lemma StraddlesNot(spans: Arena, owner: PageOwner, page: int, k: SpanPtr)
    requires Tiled(spans, owner) && Boundary(spans, page) && k in spans
    ensures !(spans[k].start < page < spans[k].End())
  {
    if spans[k].start < page < spans[k].End() {
      var j :| j in spans && spans[j].End() == page;
      assert spans[j].Covers(page - 1) && spans[k].Covers(page - 1);
      assert false;
    }
  }

  /** With no entry left, every span has been passed. */
  lemma NoneLeft(spans: Arena, owner: PageOwner, pageMap: PageOwner, page: int)
    requires Geometry(spans, owner, pageMap) && Boundary(spans, page)
    requires forall p | p in pageMap :: p < page
    ensures Before(spans, page) == spans.Keys
  {
    forall k | k in spans ensures spans[k].End() <= page {
      StraddlesNot(spans, owner, page, k);
      assert spans[k].Covers(spans[k].start);
    }
  }

  /** The radix tree of the page map: of two levels, or of three. */
  datatype Tree = Two(two: RadixMap.PageMap2) | Three(three: RadixMap.PageMap3) {
    ghost predicate Valid()
      reads Parts()
    {
      match this case Two(t) => t.Valid() case Three(t) => t.Valid()
    }

    ghost function Parts(): set<object>
      reads match this case Two(t) => {t} case Three(t) => {t}
    {
      match this case Two(t) => {t, t.root} + t.leaves case Three(t) => {t, t.root} + t.tables + t.leaves
    }

    ghost function Get(k: nat): RadixMap.Pointer
      requires Valid()
      reads Parts()
    {
      match this case Two(t) => t.Get(k) case Three(t) => t.Get(k)
    }

    ghost predicate Ensured(k: nat)
      requires Valid()
      reads Parts()
    {
      match this case Two(t) => t.Ensured(k) case Three(t) => t.Ensured(k)
    }

    ghost function Leaves(): set<object>
      reads match this case Two(t) => {t} case Three(t) => {t}
    {
      match this case Two(t) => t.leaves case Three(t) => t.leaves
    }

    method Next(k: nat) returns (v: RadixMap.Pointer, ghost at: nat)
      requires Valid()
      ensures Parts() == old(Parts()) && Valid() && forall j: nat :: Get(j) == old(Get(j))
      ensures v == NULL ==> forall j | j >= k :: Get(j) == NULL
      ensures v != NULL ==> at >= k && Get(at) == v && forall j | k <= j < at :: Get(j) == NULL
    {
      match this
      case Two(t) => v, at := t.Next(k);
      case Three(t) => v, at := t.Next(k);
    }
  }

  /** The tree holds a page map: it finds its entries, and NULL elsewhere. */
  ghost predicate Holds(tree: Tree, pageMap: PageOwner)
    reads tree.Parts()
  {
    tree.Valid() && forall p: nat :: tree.Get(p) == if p in pageMap then pageMap[p] else NULL
  }

  /** Writing an entry to the tree is writing it to the page map. */
  method Record(tree: Tree, k: nat, v: SpanPtr, ghost pageMap: PageOwner)
    requires Holds(tree, pageMap) && tree.Ensured(k) && v != NULL
    modifies tree.Leaves()
    ensures Holds(tree, pageMap[k := v])
  {
    match tree
    case Two(t) =>
      t.Set(k, v);
    case Three(t) =>
      t.Set(k, v);
  }

  /** The first pointer in a tree that holds the page map of a heap is the first entry. */
  lemma RadixFinds(heap: H.PageHeap, tree: Tree, k: nat, v: RadixMap.Pointer, at: nat)
    requires heap.Valid() && Holds(tree, heap.pageMap)
    requires v == NULL ==> forall j | j >= k :: tree.Get(j) == NULL
    requires v != NULL ==> at >= k && tree.Get(at) == v && forall j | k <= j < at :: tree.Get(j) == NULL
    ensures v == NULL ==> forall p | p in heap.pageMap :: p < k
    ensures v != NULL ==> FirstEntry(heap.pageMap, k, at) && heap.pageMap[at] == v
  {
    hide H.PageHeap.Valid, Tree.Get;
    HeapFacts(heap);
    EntriesNotNull(heap.spans, heap.owner, heap.pageMap);
    forall p | p in heap.pageMap ensures p >= 0 && tree.Get(p) != NULL {}
  }

  lemma EntriesNotNull(spans: Arena, owner: PageOwner, pageMap: PageOwner)
    requires Geometry(spans, owner, pageMap)
    ensures forall p | p in pageMap :: pageMap[p] != NULL
  {
  }

  /** What the walk needs of the heap. */
  lemma HeapFacts(heap: H.PageHeap)
    requires heap.Valid()
    ensures Geometry(heap.spans, heap.owner, heap.pageMap)
    ensures forall p | p in heap.pageMap :: 1 <= p < H.ADDRESS_PAGES
    ensures forall k | k in heap.spans :: InSpace(heap, k)
  {
    forall k | k in heap.spans ensures InSpace(heap, k) {
      heap.SpanAddressable(k);
    }
  }

  ghost predicate InSpace(heap: H.PageHeap, k: SpanPtr)
    requires k in heap.spans
    reads heap
  {
    1 <= heap.spans[k].start < heap.spans[k].End() <= H.ADDRESS_PAGES
  }

  /** The range of the next span at or after a boundary, if there is one, found through
      the radix tree that holds the page map. */
  method GetNextRange(heap: H.PageHeap, tree: Tree, start: int) returns (found: bool, r: Range, ghost k: SpanPtr)
    requires heap.Valid() && Holds(tree, heap.pageMap) && start >= 0 && Boundary(heap.spans, start)
    ensures Holds(tree, heap.pageMap)
    ensures !found ==> Before(heap.spans, start) == heap.spans.Keys
    ensures found ==>
      && k in heap.spans && heap.spans[k].start >= start && r == RangeOf(heap.spans[k])
      && 1 <= heap.spans[k].length && heap.spans[k].End() <= H.ADDRESS_PAGES
      && Boundary(heap.spans, heap.spans[k].End())
      && k !in Before(heap.spans, start)
      && Before(heap.spans, heap.spans[k].End()) == Before(heap.spans, start) + {k}
  {
    hide H.PageHeap.Valid, Geometry, Before, Boundary, Tree.Get;
    HeapFacts(heap);
    r, k := Range(0, 0, RangeFree), NULL;
    var span;
    ghost var q;
    span, q := tree.Next(start);
    RadixFinds(heap, tree, start, span, q);
    found := span != NULL;
    if !found {
      NoneLeft(heap.spans, heap.owner, heap.pageMap, start);
      return;
    }
    NextStartsSpan(heap.spans, heap.owner, heap.pageMap, start, q);
    k := span;
    r := RangeOf(heap.spans[span]);
    assert InSpace(heap, span);
  }

  const BATCH: int := 16

  ghost function Visited(order: seq<SpanPtr>): set<SpanPtr> { set k | k in order }

  /** The ranges so far are those of the spans that end by `page`, each once, by address. */
  ghost predicate Walked(spans: Arena, page: int, order: seq<SpanPtr>, ranges: seq<Range>) {
    && |ranges| == |order| && NoDup(order)
    && Visited(order) == Before(spans, page)
    && (forall i | 0 <= i < |order| :: order[i] in spans && ranges[i] == RangeOf(spans[order[i]]))
    && (forall i, j | 0 <= i < j < |order| :: order[i] in spans && order[j] in spans && spans[order[i]].End() <= spans[order[j]].start)
  }

  /** The ranges are those of the spans, one for each, by address. */
  ghost predicate EachOnce(spans: Arena, ranges: seq<Range>) {
    && |ranges| == |spans|
    && (forall k | k in spans :: RangeOf(spans[k]) in ranges)
    && (forall i, j | 0 <= i < j < |ranges| :: ranges[i].address + ranges[i].length <= ranges[j].address)
  }

  lemma {:induction false} CountOnce(order: seq<SpanPtr>)
    requires NoDup(order)
    ensures |Visited(order)| == |order|
  {
    var s := Visited(order);
    if order == [] {
      assert s == {};
    } else {
      var n := |order| - 1;
      var rest := Visited(order[..n]);
      CountOnce(order[..n]);
      assert order == order[..n] + [order[n]];
      assert forall k :: k in s <==> k in rest + {order[n]};
      CountOne(s, rest, order[n]);
      assert |order[..n]| == n;
    }
  }

  lemma CountOne(s: set<SpanPtr>, rest: set<SpanPtr>, k: SpanPtr)
    requires s == rest + {k} && k !in rest
    ensures |s| == |rest| + 1
  {
  }

  lemma WalkedOnce(spans: Arena, page: int, order: seq<SpanPtr>, ranges: seq<Range>)
    requires Walked(spans, page, order, ranges) && Visited(order) == spans.Keys
    ensures EachOnce(spans, ranges)
  {
    CountOnce(order);
    assert |spans| == |spans.Keys|;
    forall k | k in spans ensures RangeOf(spans[k]) in ranges {
      assert k in Visited(order);
      var i :| 0 <= i < |order| && order[i] == k;
      assert ranges[i] == RangeOf(spans[k]);
    }
    forall i, j | 0 <= i < j < |ranges| ensures ranges[i].address + ranges[i].length <= ranges[j].address {
      assert spans[order[i]].End() <= spans[order[j]].start;
    }
  }

  lemma WalkOn(spans: Arena, page: int, order: seq<SpanPtr>, ranges: seq<Range>, k: SpanPtr)
    requires Walked(spans, page, order, ranges) && k in spans && spans[k].start >= page && k !in Before(spans, page)
    requires Before(spans, spans[k].End()) == Before(spans, page) + {k}
    ensures Walked(spans, spans[k].End(), order + [k], ranges + [RangeOf(spans[k])])
  {
    var order' := order + [k];
    assert forall x :: x in order' <==> x in order || x == k;
    forall i | 0 <= i < |order| ensures order[i] != k && spans[order[i]].End() <= spans[k].start {
      assert order[i] in Visited(order);
      assert order[i] in Before(spans, page);
    }
  }

  /** Visits the ranges of all spans, in batches. On a heap that does not change meanwhile
      every span is visited exactly once, in address order. */
  method IterateOverRanges(heap: H.PageHeap, tree: Tree) returns (visited: seq<Range>, ghost order: seq<SpanPtr>)
    requires heap.Valid() && Holds(tree, heap.pageMap)
    ensures Walked(heap.spans, H.ADDRESS_PAGES, order, visited)
    ensures Visited(order) == heap.spans.Keys
    ensures EachOnce(heap.spans, visited)
  {
    hide H.PageHeap.Valid, Geometry, Walked, Before, Boundary, EachOnce, Holds;
    WalkStart(heap);
    var page := 1;
    visited, order := [], [];
    var done := false;
    while !done
      invariant Holds(tree, heap.pageMap)
      invariant page >= 1 && Boundary(heap.spans, page) && Walked(heap.spans, page, order, visited)
      invariant done ==> Before(heap.spans, page) == heap.spans.Keys
      invariant page <= H.ADDRESS_PAGES
      decreases !done, H.ADDRESS_PAGES - page
    {
      var ranges: seq<Range> := [];
      assert visited + ranges == visited;
      ghost var page0 := page;
      while |ranges| < BATCH
        invariant Holds(tree, heap.pageMap)
        invariant page0 <= page <= H.ADDRESS_PAGES && Boundary(heap.spans, page)
        invariant Walked(heap.spans, page, order, visited + ranges)
        invariant done ==> Before(heap.spans, page) == heap.spans.Keys
        invariant !done && |ranges| > 0 ==> page0 < page
        decreases BATCH - |ranges|
      {
        ghost var k;
        var found, r;
        found, r, k := GetNextRange(heap, tree, page);
        if !found {
          done := true;
          break;
        }
        var limit := r.address + r.length;
        WalkOn(heap.spans, page, order, visited + ranges, k);
        assert visited + (ranges + [r]) == visited + ranges + [r];
        page := (limit + PAGE_SIZE - 1) / PAGE_SIZE;
        order := order + [k];
        ranges := ranges + [r];
      }
      visited := visited + ranges;
    }
    WalkEnd(heap, page, order, visited);
    WalkedOnce(heap.spans, H.ADDRESS_PAGES, order, visited);
  }

  lemma WalkStart(heap: H.PageHeap)
    requires heap.Valid()
    ensures Boundary(heap.spans, 1) && Walked(heap.spans, 1, [], [])
  {
    hide H.PageHeap.Valid, Geometry;
    HeapFacts(heap);
    forall k | k in heap.spans ensures heap.spans[k].End() > 1 {
      assert InSpace(heap, k);
    }
    assert Before(heap.spans, 1) == {};
  }

  lemma WalkEnd(heap: H.PageHeap, page: int, order: seq<SpanPtr>, visited: seq<Range>)
    requires heap.Valid() && Walked(heap.spans, page, order, visited) && Before(heap.spans, page) == heap.spans.Keys
    ensures Walked(heap.spans, H.ADDRESS_PAGES, order, visited) && Visited(order) == heap.spans.Keys
  {
    hide H.PageHeap.Valid, Geometry;
    HeapFacts(heap);
    forall k | k in heap.spans ensures heap.spans[k].End() <= H.ADDRESS_PAGES {
      assert InSpace(heap, k);
    }
    assert Before(heap.spans, H.ADDRESS_PAGES) == heap.spans.Keys;
  }
}
