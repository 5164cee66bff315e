/** The leak checker's mark phase: which heap objects are reachable from the roots. */
module Marking {
  import opened Arith
  import opened A = AddressMap

  const WORD_SIZE: int := 8

  datatype Placement = MustBeOnHeap | IgnoredOnHeap | Elsewhere

  /** A piece of memory to look through for pointers. */
  datatype AllocObject = AllocObject(ptr: Address, size: nat, place: Placement)

  /** What the heap profile records of an allocation, but for its call stack. */
  datatype AllocValue = AllocValue(bytes: nat, live: bool, ignored: bool)

  const BYTES: AllocValue -> nat := (v: AllocValue) => v.bytes

  // ---- Reachability ----

  /** What decides reachability: the recorded objects, the contents of memory, the
      alignment of pointers and how far from an object's block pointers are followed. */
  datatype World = World(sizes: map<Address, nat>, memory: Address -> Address, align: int, maxSize: nat)

  ghost function Sizes(contents: map<Address, AllocValue>): map<Address, nat> {
    map a | a in contents :: contents[a].bytes
  }

  ghost function Live(contents: map<Address, AllocValue>): set<Address> {
    set a | a in contents && contents[a].live
  }

  /** The value x is taken for a pointer to the object at a. */
  ghost predicate PointsTo(w: World, x: Address, a: Address) {
    a in w.sizes && Inside(a, w.sizes[a], x) && Near(a, x, w.maxSize)
  }

  /** A pointer may be stored at p within r. */
  ghost predicate Slot(w: World, r: AllocObject, p: Address)
    requires w.align > 0
  {
    r.ptr <= p && p + WORD_SIZE <= r.ptr + r.size && p % w.align == 0
  }

  ghost predicate Edge(w: World, r: AllocObject, a: Address)
    requires w.align > 0
  {
    exists p: Address :: Slot(w, r, p) && PointsTo(w, w.memory(p), a)
  }

  ghost function Own(w: World, a: Address): AllocObject
    requires a in w.sizes
  {
    AllocObject(a, w.sizes[a], IgnoredOnHeap)
  }

  ghost predicate Hits(w: World, r: AllocObject, a: Address)
    requires w.align > 0
  {
    Edge(w, r, a) || (r.place == MustBeOnHeap && r.ptr == a && a in w.sizes)
  }

  /** a can be reached from the roots over n other objects. */
  ghost predicate ReachedIn(w: World, roots: set<AllocObject>, a: Address, n: nat)
    requires w.align > 0
    decreases n
  {
    if n == 0 then exists r | r in roots :: Hits(w, r, a)
    else exists b | b in w.sizes :: ReachedIn(w, roots, b, n - 1) && Edge(w, Own(w, b), a)
  }

  ghost predicate Reachable(w: World, roots: set<AllocObject>, a: Address)
    requires w.align > 0
  {
    exists n: nat :: ReachedIn(w, roots, a, n)
  }

  /** Everything a live object points to is live. */
  ghost predicate Closed(w: World, live: set<Address>)
    requires w.align > 0
  {
    forall a, b {:trigger Edge(w, Own(w, a), b)} | a in live && a in w.sizes && Edge(w, Own(w, a), b) :: b in live
  }

  // ---- The flood fill ----

  ghost predicate Scanned(w: World, r: AllocObject, live: set<Address>)
    requires w.align > 0
  {
    forall a | Edge(w, r, a) :: a in live
  }

  ghost predicate SizesMatch(w: World, roots: set<AllocObject>) {
    forall r | r in roots && r.place == MustBeOnHeap && r.ptr in w.sizes :: r.size == w.sizes[r.ptr]
  }

  /** The fill so far: what became live is reachable, and what has not been looked
      through is pending. */
  ghost predicate Filling(w: World, roots: set<AllocObject>, live0: set<Address>, live: set<Address>, pending: set<AllocObject>)
    requires w.align > 0
  {
    && live0 <= live <= w.sizes.Keys
    && (forall a | a in live && a !in live0 :: Reachable(w, roots, a))
    && (forall e | e in pending :: e in roots || (e.ptr in live && e.ptr !in live0 && e == Own(w, e.ptr)))
    && (forall a | a in live && a !in live0 :: Own(w, a) in pending || Scanned(w, Own(w, a), live))
    && (forall r | r in roots :: r in pending ||
          (Scanned(w, r, live) && (r.place == MustBeOnHeap && r.ptr in w.sizes ==> r.ptr in live)))
  }

  lemma FillStart(w: World, roots: set<AllocObject>, live0: set<Address>)
    requires w.align > 0 && live0 <= w.sizes.Keys
    ensures Filling(w, roots, live0, live0, roots)
  {
  }

  /** When nothing is pending, exactly the reachable objects have become live. */
  lemma FillDone(w: World, roots: set<AllocObject>, live0: set<Address>, live: set<Address>)
    requires w.align > 0 && Closed(w, live0) && Filling(w, roots, live0, live, {})
    ensures Closed(w, live)
    ensures forall a: Address :: a in live <==> a in live0 || Reachable(w, roots, a)
  {
    forall a, b | a in live && a in w.sizes && Edge(w, Own(w, a), b) ensures b in live {
      assert a in live0 || Scanned(w, Own(w, a), live);
    }
    forall a: Address | Reachable(w, roots, a) ensures a in live {
      var n: nat :| ReachedIn(w, roots, a, n);
      ReachedLive(w, roots, live, a, n);
    }
  }

  lemma {:induction false} ReachedLive(w: World, roots: set<AllocObject>, live: set<Address>, a: Address, n: nat)
    requires w.align > 0 && ReachedIn(w, roots, a, n) && Closed(w, live)
    requires forall r, b | r in roots && Hits(w, r, b) :: b in live
    ensures a in live
    decreases n
  {
    hide Edge;
    if n != 0 {
      var b :| b in w.sizes && ReachedIn(w, roots, b, n - 1) && Edge(w, Own(w, b), a);
      ReachedLive(w, roots, live, b, n - 1);
    }
  }

  /** Marking an object found while looking through a pending piece. */
  lemma FillPush(w: World, roots: set<AllocObject>, live0: set<Address>, live: set<Address>, pending: set<AllocObject>, e: AllocObject, a: Address)
    requires w.align > 0 && Filling(w, roots, live0, live, pending) && e in pending && Edge(w, e, a) && a in w.sizes && a !in live
    ensures Filling(w, roots, live0, live + {a}, pending + {Own(w, a)})
  {
    FillReach(w, roots, live0, live, pending, e, a);
  }

  lemma FillReach(w: World, roots: set<AllocObject>, live0: set<Address>, live: set<Address>, pending: set<AllocObject>, e: AllocObject, a: Address)
    requires w.align > 0 && Filling(w, roots, live0, live, pending) && e in pending && Edge(w, e, a)
    ensures Reachable(w, roots, a)
  {
    if e in roots {
      assert Hits(w, e, a);
      assert ReachedIn(w, roots, a, 0);
    } else {
      var n: nat :| ReachedIn(w, roots, e.ptr, n);
      assert ReachedIn(w, roots, a, n + 1);
    }
  }

  /** Marking the object that a pending root says must be on the heap. */
  lemma FillMust(w: World, roots: set<AllocObject>, live0: set<Address>, live: set<Address>, pending: set<AllocObject>, e: AllocObject)
    requires w.align > 0 && Filling(w, roots, live0, live, pending) && e in roots && e in pending
    requires e.place == MustBeOnHeap && e.ptr in w.sizes && e.ptr !in live
    ensures Filling(w, roots, live0, live + {e.ptr}, pending + {Own(w, e.ptr)})
  {
    assert Hits(w, e, e.ptr);
    assert ReachedIn(w, roots, e.ptr, 0);
  }

  /** A piece that has been looked through need no longer be pending, nor need the object
      it covers. */
  lemma FillScanned(w: World, roots: set<AllocObject>, live0: set<Address>, live: set<Address>, pending: set<AllocObject>,
                    e: AllocObject, rest: set<AllocObject>)
    requires w.align > 0 && Filling(w, roots, live0, live, pending) && Scanned(w, e, live)
    requires e.place == MustBeOnHeap && e.ptr in w.sizes ==> e.ptr in live
    requires rest <= pending
    requires forall x | x in pending && x !in rest ::
      x == e || (e.ptr in w.sizes && e.size == w.sizes[e.ptr] && x == Own(w, e.ptr))
    ensures Filling(w, roots, live0, live, rest)
  {
    if e.ptr in w.sizes && e.size == w.sizes[e.ptr] {
      assert forall p: Address :: Slot(w, e, p) == Slot(w, Own(w, e.ptr), p);
      assert Scanned(w, Own(w, e.ptr), live);
    }
  }

  // ---- Sizes ----

  ghost function TotalBytes(w: World, s: set<Address>): int
    requires s <= w.sizes.Keys
  {
    if s == {} then 0 else var a :| a in s; w.sizes[a] + TotalBytes(w, s - {a})
  }

  lemma {:induction false} TotalWithout(w: World, s: set<Address>, a: Address)
    requires s <= w.sizes.Keys && a in s
    ensures TotalBytes(w, s) == w.sizes[a] + TotalBytes(w, s - {a})
    decreases s
  {
    var b :| b in s && TotalBytes(w, s) == w.sizes[b] + TotalBytes(w, s - {b});
    if b != a {
      TotalWithout(w, s - {b}, a);
      TotalWithout(w, s - {a}, b);
      assert s - {b} - {a} == s - {a} - {b};
    }
  }

  lemma TotalGrows(w: World, live0: set<Address>, live: set<Address>, a: Address)
    requires live <= w.sizes.Keys && a in w.sizes && a !in live && a !in live0
    ensures TotalBytes(w, live + {a} - live0) == TotalBytes(w, live - live0) + w.sizes[a]
    ensures |live + {a} - live0| == |live - live0| + 1
  {
    TotalWithout(w, live + {a} - live0, a);
    assert live + {a} - live0 - {a} == live - live0;
  }

  // ---- Alignment ----

  /** The first aligned address at or after a; none lies between two multiples. */
  lemma NextAligned(a: int, align: int)
    requires align > 0 && a >= 0
    ensures var p := if a % align == 0 then a else a + align - a % align;
            p % align == 0 && forall q | a <= q < p :: q % align != 0
  {
    var r := a % align;
    assert a == align * (a / align) + r;
    var p := if r == 0 then a else a + align - r;
    ModUnique(p, align, a / align + (if r == 0 then 0 else 1), 0);
    forall q | a <= q < p ensures q % align != 0 {
      ModUnique(q, align, a / align, q - a + r);
    }
  }

  // ---- The checker ----

  /** All recorded objects lie between the bounds and are no larger than the largest. */
  ghost predicate Bounds(contents: map<Address, AllocValue>, lo: Address, hi: Address, largest: nat) {
    forall a | a in contents :: lo <= a && a + contents[a].bytes <= hi && contents[a].bytes <= largest
  }

  ghost function Elements(stack: seq<AllocObject>): set<AllocObject> { set e | e in stack }

  lemma PushElements(stack: seq<AllocObject>, e: AllocObject, extra: set<AllocObject>)
    ensures Elements(stack + [e]) + extra == Elements(stack) + extra + {e}
  {
  }

  /** A piece of memory ends early enough for addresses within it not to wrap around. */
  ghost predicate InMemory(e: AllocObject, align: int) { e.ptr + e.size + align < ADDRESSES }

  /** Everything the word at p points to is live. */
  ghost predicate Followed(w: World, p: Address, live: set<Address>) {
    forall a | PointsTo(w, w.memory(p), a) :: a in live
  }

  lemma FollowedMore(w: World, live: set<Address>, live': set<Address>)
    requires live <= live'
    ensures forall p | Followed(w, p, live) :: Followed(w, p, live')
  {
  }

  lemma SlotEdge(w: World, e: AllocObject, p: Address, a: Address)
    requires w.align > 0 && Slot(w, e, p) && PointsTo(w, w.memory(p), a)
    ensures Edge(w, e, a) && a in w.sizes
  {
  }

  lemma AllFollowed(w: World, e: AllocObject, live: set<Address>)
    requires w.align > 0 && forall p: Address | Slot(w, e, p) :: Followed(w, p, live)
    ensures Scanned(w, e, live)
  {
  }

  /** What looking through memory did: marked objects and put each on the stack. */
  ghost predicate Progress(w: World, live: set<Address>, stack: seq<AllocObject>, live': set<Address>, stack': seq<AllocObject>) {
    && live <= live' <= w.sizes.Keys && stack <= stack'
    && (forall e | e in stack' :: e in stack || (e.ptr in w.sizes && e == Own(w, e.ptr)))
    && (live' == live ==> stack' == stack)
  }

  lemma LiveSized(contents: map<Address, AllocValue>)
    ensures Live(contents) <= Sizes(contents).Keys
  {
  }

  lemma ProgressNone(w: World, live: set<Address>, stack: seq<AllocObject>)
    requires live <= w.sizes.Keys
    ensures Progress(w, live, stack, live, stack)
  {
  }

  lemma ProgressStep(w: World, live: set<Address>, stack: seq<AllocObject>, live': set<Address>, stack': seq<AllocObject>, a: Address)
    requires Progress(w, live, stack, live', stack') && a in w.sizes && a !in live'
    ensures Progress(w, live, stack, live' + {a}, stack' + [Own(w, a)])
  {
  }

  /** The stack holds what it held and objects between the bounds. */
  lemma ProgressInMemory(w: World, live: set<Address>, stack: seq<AllocObject>, live': set<Address>, stack': seq<AllocObject>,
                         contents: map<Address, AllocValue>, lo: Address, hi: Address, largest: nat, align: int)
    requires Progress(w, live, stack, live', stack') && w.sizes == Sizes(contents) && Bounds(contents, lo, hi, largest)
    requires hi + align < ADDRESSES && forall e | e in stack :: InMemory(e, align)
    ensures forall e | e in stack' :: InMemory(e, align)
    ensures live <= live' <= w.sizes.Keys && (live' == live ==> stack' == stack)
  {
  }

  ghost predicate Counted(w: World, live0: set<Address>, live: set<Address>, count: int, bytes: int) {
    live0 <= live <= w.sizes.Keys && count == |live - live0| && bytes == TotalBytes(w, live - live0)
  }

  lemma CountedNone(w: World, live: set<Address>)
    requires live <= w.sizes.Keys
    ensures Counted(w, live, live, 0, 0)
  {
    assert live - live == {};
  }

  lemma CountedOne(w: World, live0: set<Address>, live: set<Address>, count: int, bytes: int, a: Address)
    requires Counted(w, live0, live, count, bytes) && a in w.sizes && a !in live
    ensures Counted(w, live0, live + {a}, count + 1, bytes + w.sizes[a])
  {
    TotalGrows(w, live0, live, a);
  }

  /** How many objects are not live. */
  ghost function Left(w: World, live: set<Address>): nat { |w.sizes.Keys - live| }

  /** Either more objects are live, so that fewer are left, or nothing was marked. */
  lemma Dwindles(w: World, live: set<Address>, live': set<Address>)
    requires live <= live' <= w.sizes.Keys
    ensures live' != live ==> Left(w, live') < Left(w, live)
  {
    var left, left' := w.sizes.Keys - live, w.sizes.Keys - live';
    if live' != live {
      assert left' < left;
      assert left == left' + (live' - live);
      var a :| a in live' && a !in live;
      assert a in live' - live;
    }
  }

  lemma PopElements(stack: seq<AllocObject>)
    requires stack != []
    ensures Elements(stack) == Elements(stack[..|stack| - 1]) + {stack[|stack| - 1]}
  {
  }

  lemma NoElements()
    ensures Elements([]) == {}
  {
  }

  /** Only roots are said to be on the heap. */
  lemma PendingRoot(w: World, roots: set<AllocObject>, live0: set<Address>, live: set<Address>, pending: set<AllocObject>, e: AllocObject)
    requires w.align > 0 && Filling(w, roots, live0, live, pending) && e in pending && e.place == MustBeOnHeap
    ensures e in roots
  {
  }

  /** Marking one recorded object. */
  lemma MarkedOne(contents: map<Address, AllocValue>, a: Address)
    ensures a in Sizes(contents) <==> a in contents
    ensures a in Live(contents) <==> a in contents && contents[a].live
    ensures a in contents ==>
      var after := contents[a := contents[a].(live := true)];
      && Sizes(after) == Sizes(contents) && Live(after) == Live(contents) + {a}
      && (Ranges(contents, BYTES) ==> Ranges(after, BYTES))
  {
  }

  class HeapChecker {
    const profile: AddressMap<AllocValue>
    var liveObjects: seq<AllocObject>
    var minHeapAddress: Address
    var maxHeapAddress: Address
    var maxHeapObjectSize: nat
    var liveObjectsTotal: int
    var liveBytesTotal: int

    ghost predicate Valid()
      reads this`minHeapAddress, this`maxHeapAddress, this`maxHeapObjectSize, profile, profile.hashtable, profile.clusters.Values
    {
      && profile.Valid() && Ranges(profile.contents, BYTES)
      && Bounds(profile.contents, minHeapAddress, maxHeapAddress, maxHeapObjectSize)
    }

    constructor ()
      ensures Valid() && fresh(profile) && profile.contents == map[] && liveObjects == []
    {
      profile := new AddressMap<AllocValue>();
      liveObjects := [];
      minHeapAddress, maxHeapAddress, maxHeapObjectSize := ADDRESSES - 1, 0, 0;
      liveObjectsTotal, liveBytesTotal := 0, 0;
    }

    /** Widens the bounds to take in a new object. */
    method Widen(ptr: Address, size: nat, ghost v: AllocValue)
      requires Valid() && ptr + size < ADDRESSES && v.bytes == size
      modifies this`minHeapAddress, this`maxHeapAddress, this`maxHeapObjectSize
      ensures Valid() && Bounds(profile.contents[ptr := v], minHeapAddress, maxHeapAddress, maxHeapObjectSize)
    {
      hide A.AddressMap.Valid, Ranges;
      if size > maxHeapObjectSize {
        maxHeapObjectSize := size;
      }
      var addr := ptr;
      if addr < minHeapAddress {
        minHeapAddress := addr;
      }
      addr := addr + size;
      if addr > maxHeapAddress {
        maxHeapAddress := addr;
      }
    }

    /** Sees an allocation; records it if the checker is on. */
    method NewHook(ptr: Address, size: nat, on: bool, ignore: bool)
      requires Valid() && ptr + size < ADDRESSES
      requires on ==> Ranges(profile.contents[ptr := AllocValue(size, false, ignore)], BYTES)
      modifies this`minHeapAddress, this`maxHeapAddress, this`maxHeapObjectSize
      modifies profile, profile.hashtable, profile.clusters.Values
      ensures Valid()
      ensures profile.contents == if on then old(profile.contents)[ptr := AllocValue(size, false, ignore)] else old(profile.contents)
    {
      hide A.AddressMap.Valid, Ranges, Bounds;
      Widen(ptr, size, AllocValue(size, false, ignore));
      if on {
        profile.Insert(ptr, AllocValue(size, false, false));
        if ignore {
          profile.Update(ptr, AllocValue(size, false, true));
        }
        assert profile.contents == old(profile.contents)[ptr := AllocValue(size, false, ignore)];
      }
    }

    /** Sees a deallocation. */
    method DeleteHook(ptr: Address, on: bool)
      requires Valid()
      modifies profile`contents, profile.clusters.Values
      ensures Valid() && profile.contents == if on then old(profile.contents) - {ptr} else old(profile.contents)
    {
      hide A.AddressMap.Valid;
      if on {
        var _ := profile.FindAndRemove(ptr);
      }
    }

    method MarkAsLive(ptr: Address) returns (marked: bool)
      requires Valid()
      modifies profile`contents, profile.clusters.Values
      ensures Valid() && Sizes(profile.contents) == Sizes(old(profile.contents))
      ensures marked <==> ptr in Sizes(profile.contents) && ptr !in Live(old(profile.contents))
      ensures marked ==> Live(profile.contents) == Live(old(profile.contents)) + {ptr}
      ensures !marked ==> Live(profile.contents) == Live(old(profile.contents))
    {
      hide A.AddressMap.Valid, Ranges, Live, Sizes;
      MarkedOne(profile.contents, ptr);
      var alloc := profile.Find(ptr);
      if alloc.Some? && !alloc.value.live {
        profile.Update(ptr, alloc.value.(live := true));
        return true;
      }
      return false;
    }

    /** Takes the word addr for a pointer. Words outside the heap's bounds are dropped at
        once, which loses nothing. A newly marked object is put on the stack. */
    method FollowPointer(addr: Address, maxSize: nat, ghost w: World) returns (marked: bool, target: Address, size: nat)
      requires Valid() && w.sizes == Sizes(profile.contents) && w.maxSize == maxSize
      modifies this`liveObjects, profile`contents, profile.clusters.Values
      ensures Valid() && Sizes(profile.contents) == w.sizes
      ensures forall a | PointsTo(w, addr, a) :: a in Live(profile.contents)
      ensures marked ==> PointsTo(w, addr, target) && target !in Live(old(profile.contents)) && size == w.sizes[target]
      ensures marked ==>
        Live(profile.contents) == Live(old(profile.contents)) + {target} && liveObjects == old(liveObjects) + [Own(w, target)]
      ensures !marked ==> Live(profile.contents) == Live(old(profile.contents)) && liveObjects == old(liveObjects)
    {
      hide A.AddressMap.Valid, Ranges, Live, Sizes, Near, Inside, A.Bounded, PointsTo, Bounds;
      marked, target, size := false, 0, 0;
      Targets(w, profile.contents, addr, minHeapAddress, maxHeapAddress, maxHeapObjectSize);
      var canBeOnHeap := addr <= maxHeapAddress && minHeapAddress <= addr;
      if canBeOnHeap {
        var found := profile.FindInside(BYTES, maxSize, addr);
        if found.Some? {
          target, size := found.value.0, found.value.1.bytes;
          marked := MarkAsLive(target);
          if marked {
            liveObjects := liveObjects + [AllocObject(target, size, IgnoredOnHeap)];
          }
        }
      }
    }

    /** What FindInside's answer says about a word: it points to one object at most, and
        to none outside the bounds. */
    static lemma Targets(w: World, contents: map<Address, AllocValue>, addr: Address, lo: Address, hi: Address, largest: nat)
      requires Ranges(contents, BYTES) && w.sizes == Sizes(contents) && Bounds(contents, lo, hi, largest)
      ensures w.sizes.Keys == contents.Keys && forall a | a in contents :: w.sizes[a] == contents[a].bytes
      ensures forall a | a in contents && Inside(a, BYTES(contents[a]), addr) && Near(a, addr, w.maxSize) ::
                PointsTo(w, addr, a) && forall b | PointsTo(w, addr, b) :: b == a
      ensures (forall a | a in contents && Inside(a, BYTES(contents[a]), addr) :: !Near(a, addr, w.maxSize)) ==>
                forall a :: !PointsTo(w, addr, a)
      ensures !(lo <= addr <= hi) ==> forall a :: !PointsTo(w, addr, a)
    {
    }

    /** Looks at the word at p within the piece e. */
    method FollowSlot(e: AllocObject, p: Address, count0: int, bytes0: int, memory: Address -> Address, maxSize: nat,
                      ghost w: World, ghost roots: set<AllocObject>, ghost live0: set<Address>, ghost extra: set<AllocObject>,
                      ghost liveIn: set<Address>, ghost stackIn: seq<AllocObject>)
      returns (count: int, bytes: int)
      requires Valid() && w.align > 0 && w == World(Sizes(profile.contents), memory, w.align, maxSize) && Slot(w, e, p) && e in extra
      requires Filling(w, roots, live0, Live(profile.contents), Elements(liveObjects) + extra)
      requires Progress(w, liveIn, stackIn, Live(profile.contents), liveObjects)
      requires Counted(w, live0, Live(profile.contents), count0, bytes0)
      modifies this`liveObjects, profile`contents, profile.clusters.Values
      ensures Valid() && Sizes(profile.contents) == w.sizes && Live(old(profile.contents)) <= Live(profile.contents)
      ensures Filling(w, roots, live0, Live(profile.contents), Elements(liveObjects) + extra)
      ensures Progress(w, liveIn, stackIn, Live(profile.contents), liveObjects)
      ensures Counted(w, live0, Live(profile.contents), count, bytes)
      ensures Followed(w, p, Live(profile.contents))
    {
      hide A.AddressMap.Valid, Ranges, Bounds, Filling, Edge, Progress, Live, Sizes, PointsTo, Slot, Valid, Counted;
      count, bytes := count0, bytes0;
      ghost var live, stack := Live(profile.contents), liveObjects;
      var marked, target, targetSize := FollowPointer(memory(p), maxSize, w);
      if marked {
        SlotEdge(w, e, p, target);
        FillPush(w, roots, live0, live, Elements(stack) + extra, e, target);
        PushElements(stack, Own(w, target), extra);
        ProgressStep(w, liveIn, stackIn, live, stack, target);
        CountedOne(w, live0, live, count, bytes, target);
        count := count + 1;
        bytes := bytes + targetSize;
      }
    }

    /** Looks at every aligned word of a piece of memory and marks what it points to. The
        objects newly marked go on the stack. */
    method LookThrough(e: AllocObject, count0: int, bytes0: int, memory: Address -> Address, align: int, maxSize: nat,
                       ghost w: World, ghost roots: set<AllocObject>, ghost live0: set<Address>, ghost extra: set<AllocObject>)
      returns (count: int, bytes: int)
      requires Valid() && align > 0 && w == World(Sizes(profile.contents), memory, align, maxSize) && InMemory(e, align)
      requires Filling(w, roots, live0, Live(profile.contents), Elements(liveObjects) + extra) && e in extra
      requires Counted(w, live0, Live(profile.contents), count0, bytes0)
      modifies this`liveObjects, profile`contents, profile.clusters.Values
      ensures Valid() && Sizes(profile.contents) == w.sizes && Scanned(w, e, Live(profile.contents))
      ensures Filling(w, roots, live0, Live(profile.contents), Elements(liveObjects) + extra)
      ensures Progress(w, Live(old(profile.contents)), old(liveObjects), Live(profile.contents), liveObjects)
      ensures Counted(w, live0, Live(profile.contents), count, bytes)
    {
      hide A.AddressMap.Valid, Ranges, Bounds, Filling, Edge, Progress, Live, Sizes, PointsTo, Valid, Followed, Counted;
      count, bytes := count0, bytes0;
      ghost var liveIn, stackIn := Live(profile.contents), liveObjects;
      LiveSized(profile.contents);
      ProgressNone(w, liveIn, stackIn);
      NextAligned(e.ptr, align);
      var p, size := e.ptr, e.size;
      var remainder := p % align;
      if remainder != 0 {
        p := p + (align - remainder);
        size := if size >= align - remainder then size - (align - remainder) else 0;
      }
      if size < WORD_SIZE {
        AllFollowed(w, e, Live(profile.contents));
        return;
      }
      var last := p + size - WORD_SIZE;
      while p <= last
        invariant p >= 0 && p % align == 0 && forall q: Address | Slot(w, e, q) && q < p :: Followed(w, q, Live(profile.contents))
        invariant Valid() && Sizes(profile.contents) == w.sizes
        invariant Filling(w, roots, live0, Live(profile.contents), Elements(liveObjects) + extra)
        invariant Progress(w, liveIn, stackIn, Live(profile.contents), liveObjects)
        invariant Counted(w, live0, Live(profile.contents), count, bytes)
      {
        ghost var live := Live(profile.contents);
        count, bytes := FollowSlot(e, p, count, bytes, memory, maxSize, w, roots, live0, extra, liveIn, stackIn);
        FollowedMore(w, live, Live(profile.contents));
        AlignedStep(p, align);
        p := p + align;
      }
      AllFollowed(w, e, Live(profile.contents));
    }

    /** Takes a piece off the stack, marks it if it is a heap object, and looks through it. */
    method PopAndScan(count0: int, bytes0: int, memory: Address -> Address, align: int, maxSize: nat,
                      ghost w: World, ghost roots: set<AllocObject>, ghost live0: set<Address>)
      returns (count: int, bytes: int)
      requires Valid() && align > 0 && w == World(Sizes(profile.contents), memory, align, maxSize) && SizesMatch(w, roots)
      requires maxHeapAddress + align < ADDRESSES && forall e | e in liveObjects :: InMemory(e, align)
      requires liveObjects != [] && Filling(w, roots, live0, Live(profile.contents), Elements(liveObjects))
      requires Counted(w, live0, Live(profile.contents), count0, bytes0)
      modifies this`liveObjects, profile`contents, profile.clusters.Values
      ensures Valid() && Sizes(profile.contents) == w.sizes && forall e | e in liveObjects :: InMemory(e, align)
      ensures Filling(w, roots, live0, Live(profile.contents), Elements(liveObjects))
      ensures Live(old(profile.contents)) <= Live(profile.contents) <= w.sizes.Keys
      ensures Live(old(profile.contents)) == Live(profile.contents) ==> |liveObjects| < |old(liveObjects)|
      ensures Counted(w, live0, Live(profile.contents), count, bytes)
    {
      hide A.AddressMap.Valid, Ranges, Bounds, Filling, Edge, Progress, Live, Sizes, PointsTo, Valid, Counted, Scanned, Own, Elements, InMemory;
      count, bytes := count0, bytes0;
      var e := liveObjects[|liveObjects| - 1];
      ghost var stack, live := liveObjects, Live(profile.contents);
      liveObjects := liveObjects[..|liveObjects| - 1];
      ghost var extra := {e};
      PopElements(stack);
      if e.place == MustBeOnHeap {
        PendingRoot(w, roots, live0, live, Elements(stack), e);
        var marked := MarkAsLive(e.ptr);
        if marked {
          FillMust(w, roots, live0, live, Elements(stack), e);
          CountedOne(w, live0, live, count, bytes, e.ptr);
          count := count + 1;
          bytes := bytes + e.size;
          extra := {e} + {Own(w, e.ptr)};
          assert Elements(liveObjects) + extra == Elements(stack) + {Own(w, e.ptr)};
        }
      }
      ghost var live1, stack1 := Live(profile.contents), liveObjects;
      count, bytes := LookThrough(e, count, bytes, memory, align, maxSize, w, roots, live0, extra);
      InBounds(w, live1, stack1, align);
      FillScanned(w, roots, live0, Live(profile.contents), Elements(liveObjects) + extra, e, Elements(liveObjects));
    }

    lemma InBounds(w: World, live: set<Address>, stack: seq<AllocObject>, align: int)
      requires Valid() && Progress(w, live, stack, Live(profile.contents), liveObjects) && w.sizes == Sizes(profile.contents)
      requires maxHeapAddress + align < ADDRESSES && forall e | e in stack :: InMemory(e, align)
      ensures forall e | e in liveObjects :: InMemory(e, align)
      ensures live <= Live(profile.contents) <= w.sizes.Keys && (Live(profile.contents) == live ==> liveObjects == stack)
    {
      hide A.AddressMap.Valid, Ranges, Bounds, Progress, Live, Sizes;
      ProgressInMemory(w, live, stack, Live(profile.contents), liveObjects, profile.contents, minHeapAddress, maxHeapAddress, maxHeapObjectSize, align);
    }

    /** Takes pieces off the stack until it is empty. */
    method Flood(memory: Address -> Address, align: int, maxSize: nat, ghost w: World) returns (count: int, bytes: int)
      requires Valid() && align > 0 && w == World(Sizes(profile.contents), memory, align, maxSize)
      requires Closed(w, Live(profile.contents)) && SizesMatch(w, Elements(liveObjects))
      requires maxHeapAddress + align < ADDRESSES && forall e | e in liveObjects :: InMemory(e, align)
      modifies this`liveObjects, profile`contents, profile.clusters.Values
      ensures Valid() && Sizes(profile.contents) == w.sizes && liveObjects == []
      ensures Closed(w, Live(profile.contents))
      ensures forall a :: a in Live(profile.contents) <==>
        a in Live(old(profile.contents)) || Reachable(w, old(Elements(liveObjects)), a)
      ensures Counted(w, Live(old(profile.contents)), Live(profile.contents), count, bytes)
    {
      hide A.AddressMap.Valid, Ranges, Bounds, Filling, Edge, Progress, Live, Sizes, PointsTo, Valid, Closed, SizesMatch, Counted, Reachable, Elements, InMemory, Left;
      ghost var roots, live0 := Elements(liveObjects), Live(profile.contents);
      LiveSized(profile.contents);
      FillStart(w, roots, live0);
      CountedNone(w, live0);
      count, bytes := 0, 0;
      while liveObjects != []
        invariant Valid() && Sizes(profile.contents) == w.sizes
        invariant Filling(w, roots, live0, Live(profile.contents), Elements(liveObjects))
        invariant forall e | e in liveObjects :: InMemory(e, align)
        invariant Counted(w, live0, Live(profile.contents), count, bytes)
        decreases Left(w, Live(profile.contents)), |liveObjects|
      {
        ghost var live := Live(profile.contents);
        count, bytes := PopAndScan(count, bytes, memory, align, maxSize, w, roots, live0);
        Dwindles(w, live, Live(profile.contents));
      }
      NoElements();
      FillDone(w, roots, live0, Live(profile.contents));
    }

    /** Marks everything reachable from the pieces on the stack and empties it. Together
        with what was live, which must be closed, exactly the reachable objects are live
        afterwards; each newly live object is counted once. */
    method IgnoreLiveObjects(memory: Address -> Address, align: int, maxSize: nat, ghost w: World)
      requires Valid() && align > 0 && w == World(Sizes(profile.contents), memory, align, maxSize)
      requires Closed(w, Live(profile.contents)) && SizesMatch(w, Elements(liveObjects))
      requires maxHeapAddress + align < ADDRESSES && forall e | e in liveObjects :: InMemory(e, align)
      modifies this`liveObjects, this`liveObjectsTotal, this`liveBytesTotal, profile`contents, profile.clusters.Values
      ensures Valid() && Sizes(profile.contents) == w.sizes && liveObjects == []
      ensures Closed(w, Live(profile.contents))
      ensures forall a :: a in Live(profile.contents) <==>
        a in Live(old(profile.contents)) || Reachable(w, old(Elements(liveObjects)), a)
      ensures Counted(w, Live(old(profile.contents)), Live(profile.contents),
                      liveObjectsTotal - old(liveObjectsTotal), liveBytesTotal - old(liveBytesTotal))
    {
      hide A.AddressMap.Valid, Filling, Edge, Progress, Live, Sizes, PointsTo, Valid, Closed, SizesMatch, Counted, Reachable, Elements, InMemory;
      var count, bytes := Flood(memory, align, maxSize, w);
      liveObjectsTotal := liveObjectsTotal + count;
      liveBytesTotal := liveBytesTotal + bytes;
    }
  }
}
