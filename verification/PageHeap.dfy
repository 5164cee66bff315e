/** The page-level allocator: spans of pages are carved, split, coalesced and released. */
module PageHeap {
  import opened PageSpace

  const DEFAULT_RELEASE_DELAY: int := 0x4_0000
  const MAX_RELEASE_DELAY: int := 0x10_0000
  const TINY_RATE: real := 0.000001
  const MIN_SYSTEM_ALLOC: int := MAX_PAGES
  const MAX_VALID_PAGES: int := 0xFFFF_FFFF_FFFF_FFFF / PAGE_SIZE
  const FORCED_COALESCE_INTERVAL: int := 0x800_0000

  /** Pages of a 48-bit address space. */
  const ADDRESS_PAGES: int := 0x8_0000_0000

  /** An answer to a request for memory. */
  datatype Offer = Refused | Offered(start: int, length: int)

  /** Pages are offered only if they are enough, addressable, and not mapped before. */
  ghost predicate Lawful(o: Offer, ask: int, mapped: set<int>) {
    o.Offered? ==>
      && 1 <= o.start && ask <= o.length && o.start + o.length <= ADDRESS_PAGES
      && forall q | o.start <= q < o.start + o.length :: q !in mapped
  }

  /** The operating system's answers, by the number of the call: to a request for some
      pages, given those mapped so far; and whether it takes memory back. */
  type Allocation = f: (nat, int, set<int>) -> Offer
    | forall i, ask, mapped :: Lawful(f(i, ask, mapped), ask, mapped)
    witness (i, ask, mapped) => Refused

  datatype System = System(allocate: Allocation, takesBack: nat -> bool)

  class PageHeap {
    /** The descriptors in use, by address. */
    var spans: Arena
    var pageMap: PageOwner
    var normal: FreeLists
    var returned: FreeLists
    var systemBytes: nat
    var freeBytes: nat
    var unmappedBytes: nat
    var committedBytes: nat
    var scavengeCounter: int
    var releaseIndex: nat
    var aggressiveDecommit: bool
    var releaseRate: real

    /** The span allocator: descriptors given back, reused last in first out, and the
        first address never used. */
    var pool: seq<SpanPtr>
    var unused: SpanPtr

    /** Pages taken from the system for any purpose, and the heap limit in pages (0: none). */
    var taken: nat
    const limit: nat

    /** The system, and how often it has been called. */
    const system: System
    var calls: nat

    /** The pages the system has handed to this heap. */
    var mapped: set<int>

    /** The descriptor covering each page obtained from the system. */
    ghost var owner: PageOwner

    /** Pages taken beyond what a limit check asked for: metadata and rounding up. */
    ghost var slack: nat

    /** The invariant while the spans in `off` are on no list. */
    ghost predicate Core(off: set<SpanPtr>)
      reads this`spans, this`pool, this`unused, this`owner, this`pageMap, this`normal, this`returned
      reads this`freeBytes, this`unmappedBytes, this`systemBytes, this`taken
    {
      && Supply(spans.Keys, pool, unused)
      && off <= spans.Keys
      && Geometry(spans, owner, pageMap)
      && Shelved(spans, owner, off, OnNormal, normal, freeBytes)
      && Shelved(spans, owner, off, OnReturned, returned, unmappedBytes)
      && systemBytes == PAGE_SIZE * |owner.Keys|
      && systemBytes <= PAGE_SIZE * taken
    }

    /** Committed and unmapped memory make up the system's memory, but for `gap` bytes
        that are decommitted and not yet on a returned list. */
    ghost predicate Balanced(gap: int)
      reads this`committedBytes, this`unmappedBytes, this`systemBytes
    {
      committedBytes + unmappedBytes + gap == systemBytes
    }

    /** Under a limit, the memory taken and not unmapped exceeds it only by the slack. */
    ghost predicate WithinLimit()
      reads this`taken, this`slack, this`unmappedBytes
    {
      limit > 0 ==> PAGE_SIZE * taken - unmappedBytes <= PAGE_SIZE * (limit + slack)
    }

    static ghost predicate Addressable(pages: set<int>) { forall q | q in pages :: 1 <= q < ADDRESS_PAGES }

    /** What every public operation keeps. */
    ghost predicate Valid()
      reads this`spans, this`pool, this`unused, this`owner, this`pageMap, this`normal, this`returned
      reads this`freeBytes, this`unmappedBytes, this`systemBytes, this`committedBytes
      reads this`taken, this`slack, this`releaseIndex, this`mapped
    {
      Core({}) && Balanced(0) && WithinLimit() && releaseIndex <= MAX_PAGES + 1
      && mapped == owner.Keys && Addressable(mapped)
    }

    ghost function See(): View
      reads this`spans, this`owner, this`freeBytes, this`unmappedBytes, this`committedBytes
    {
      View(spans, owner.Keys, freeBytes, unmappedBytes, committedBytes)
    }

    constructor (limit: nat, system: System)
      ensures Valid() && this.limit == limit && this.system == system && spans == map[] && owner == map[] && !aggressiveDecommit && slack == 0
    {
      spans, pageMap, owner := map[], map[], map[];
      normal := FreeLists(seq(MAX_PAGES, i => []), {});
      returned := FreeLists(seq(MAX_PAGES, i => []), {});
      systemBytes, freeBytes, unmappedBytes, committedBytes := 0, 0, 0, 0;
      scavengeCounter, releaseIndex, aggressiveDecommit, releaseRate := 0, MAX_PAGES, false, 1.0;
      pool, unused := [], NULL + 1;
      taken, slack, mapped := 0, 0, {};
      this.limit, this.system, calls := limit, system, 0;
      new;
      EmptyShelved(OnNormal, normal);
      EmptyShelved(OnReturned, returned);
    }

    // ---- Descriptors and free lists ----

    /** Among these calls is one in which the system did not take memory back. */
    ghost predicate Refusal(from: nat, to: nat) {
      exists i: nat :: from <= i < to && !system.takesBack(i)
    }

    /** Among these calls is one in which the system refused n pages. */
    ghost predicate Denied(from: nat, to: nat, n: int)
      reads this`mapped
    {
      exists i: nat :: from <= i < to && system.allocate(i, n, mapped).Refused?
    }

    lemma RefusalWithin(a: nat, b: nat, c: nat, d: nat)
      requires a <= b && c <= d
      ensures Refusal(b, c) ==> Refusal(a, d)
    {
    }

    function GetDescriptor(p: int): (r: SpanPtr)
      reads this`pageMap
    {
      if p in pageMap then pageMap[p] else NULL
    }

    method NewSpan(p: int, len: int) returns (t: SpanPtr)
      requires Supply(spans.Keys, pool, unused)
      modifies this`pool, this`spans, this`unused, this`taken, this`slack
      ensures Supply(spans.Keys, pool, unused)
      ensures t !in old(spans) && t != NULL && spans == old(spans)[t := Rec(p, len, InUse, 0)]
      ensures if |old(pool)| > 0 then t == old(pool)[0] && pool == old(pool)[1..] && unused == old(unused)
              else t == old(unused) && pool == old(pool) && unused == old(unused) + 1
      ensures taken - old(taken) == slack - old(slack) >= 0
    {
      hide Supply;
      TakeSupply(spans.Keys, pool, unused);
      if |pool| > 0 {
        t := pool[0];
        pool := pool[1..];
      } else {
        t := unused;
        unused := unused + 1;
        var metadata :| metadata >= 0;
        taken := taken + metadata;
        slack := slack + metadata;
      }
      spans := spans[t := Rec(p, len, InUse, 0)];
      assert spans.Keys == old(spans.Keys) + {t};
    }

    method DeleteSpan(span: SpanPtr)
      requires Supply(spans.Keys, pool, unused) && span in spans
      modifies this`pool, this`spans
      ensures Supply(spans.Keys, pool, unused) && spans == old(spans) - {span} && pool == [span] + old(pool)
    {
      hide Supply;
      GiveSupply(spans.Keys, pool, unused, span);
      pool := [span] + pool;
      spans := spans - {span};
      assert spans.Keys == old(spans.Keys) - {span};
    }

    method RecordSpan(span: SpanPtr)
      requires span in spans && spans[span].length >= 1
      modifies this`pageMap
      ensures pageMap == old(pageMap)[spans[span].start := span][spans[span].End() - 1 := span]
    {
      pageMap := pageMap[spans[span].start := span];
      if spans[span].length > 1 {
        pageMap := pageMap[spans[span].start + spans[span].length - 1 := span];
      }
    }

    method PrependToFreeList(span: SpanPtr)
      requires |normal.small| == |returned.small| == MAX_PAGES
      requires span in spans && spans[span].location != InUse && spans[span].length >= 1
      modifies this`normal, this`returned, this`freeBytes, this`unmappedBytes
      ensures normal == PutOn(old(normal), OnNormal, span, spans[span])
      ensures returned == PutOn(old(returned), OnReturned, span, spans[span])
      ensures freeBytes == old(freeBytes) + BytesAt(spans[span], OnNormal)
      ensures unmappedBytes == old(unmappedBytes) + BytesAt(spans[span], OnReturned)
    {
      var s := spans[span];
      if s.location == OnNormal {
        freeBytes := freeBytes + PAGE_SIZE * s.length;
      } else {
        unmappedBytes := unmappedBytes + PAGE_SIZE * s.length;
      }
      if s.length > MAX_PAGES {
        if s.location == OnReturned {
          returned := returned.(large := returned.large + {span});
        } else {
          normal := normal.(large := normal.large + {span});
        }
        return;
      }
      var i := s.length - 1;
      if s.location == OnNormal {
        normal := normal.(small := normal.small[i := [span] + normal.small[i]]);
      } else {
        returned := returned.(small := returned.small[i := [span] + returned.small[i]]);
      }
    }

    /** Takes a listed span off its list; it is then held off. */
    method RemoveFromFreeList(span: SpanPtr, ghost off: set<SpanPtr>)
      requires Core(off) && span in spans && span !in off && spans[span].location != InUse
      modifies this`normal, this`returned, this`freeBytes, this`unmappedBytes
      ensures Core(off + {span})
      ensures freeBytes == old(freeBytes) - BytesAt(spans[span], OnNormal)
      ensures unmappedBytes == old(unmappedBytes) - BytesAt(spans[span], OnReturned)
    {
      hide Geometry, Shelved;
      ListFacts(spans, owner, pageMap, off, OnNormal, normal, freeBytes, span);
      ListFacts(spans, owner, pageMap, off, OnReturned, returned, unmappedBytes, span);
      UnlinkShelved(spans, owner, pageMap, off, OnNormal, normal, freeBytes, span);
      UnlinkShelved(spans, owner, pageMap, off, OnReturned, returned, unmappedBytes, span);
      var s := spans[span];
      if s.location == OnNormal {
        freeBytes := freeBytes - PAGE_SIZE * s.length;
        normal := Delisted(normal, span, s.length);
      } else {
        unmappedBytes := unmappedBytes - PAGE_SIZE * s.length;
        returned := Delisted(returned, span, s.length);
      }
    }

    /** The lists after DLL_Remove, or after erasing a large span from its set. */
    static method Delisted(f: FreeLists, span: SpanPtr, length: int) returns (g: FreeLists)
      requires |f.small| == MAX_PAGES && length >= 1 && OnItsList(f, span, length)
      requires NoDups(f)
      ensures g == Removed(f, span, length)
    {
      if length > MAX_PAGES {
        return f.(large := f.large - {span});
      }
      var q := UnlinkFrom(f.small[length - 1], span);
      return f.(small := f.small[length - 1 := q]);
    }

    /** DLL_Remove: the list without the given element. */
    static method UnlinkFrom(q: seq<SpanPtr>, span: SpanPtr) returns (r: seq<SpanPtr>)
      requires span in q && NoDup(q)
      ensures r == Without(q, span)
    {
      var i :| 0 <= i < |q| && q[i] == span;
      WithoutAt(q, i);
      r := q[..i] + q[i + 1..];
    }

    /** What the invariant says of one span. */
    lemma CoreFacts(off: set<SpanPtr>, k: SpanPtr)
      requires Core(off) && k in spans
      ensures k != NULL && 1 <= spans[k].start && 1 <= spans[k].length
      ensures spans[k].location != InUse ==> spans[k].sizeClass == 0
    {
      hide Geometry, Shelved;
      SpanFacts(spans, owner, pageMap, k);
    }

    lemma CoreGeometry(off: set<SpanPtr>)
      requires Core(off)
      ensures Geometry(spans, owner, pageMap)
    {
    }

    /** A span that is not returned lies beside the returned pages. */
    lemma CoreRoom(k: SpanPtr)
      requires Core({}) && k in spans && spans[k].location != OnReturned
      ensures unmappedBytes + PAGE_SIZE * spans[k].length <= systemBytes && spans[k].length >= 1
    {
      hide Geometry, Shelved, Supply;
      RoomListed(spans, owner, pageMap, returned, unmappedBytes, k);
    }

    /** A span in use is on no list, so it may be called held or not. */
    lemma HeldOrNot(off: set<SpanPtr>, k: SpanPtr)
      requires Core(off) && k in spans && spans[k].location == InUse
      ensures Core(off + {k}) && Core(off - {k})
    {
      hide Geometry, Shelved, Supply;
      HoldUsed(spans, owner, pageMap, off, OnNormal, normal, freeBytes, k);
      HoldUsed(spans, owner, pageMap, off, OnReturned, returned, unmappedBytes, k);
    }

    /** Writes a held span's location, dropping any size class. */
    method Mark(span: SpanPtr, loc: Location)
      requires Core({span}) && span in spans
      modifies this`spans
      ensures Core({span}) && spans == Relabel(old(spans), span, loc)
    {
      hide Geometry, Shelved, Supply;
      RelabelGeometry(spans, owner, pageMap, span, loc);
      RelabelShelved(spans, owner, {span}, OnNormal, normal, freeBytes, span, loc);
      RelabelShelved(spans, owner, {span}, OnReturned, returned, unmappedBytes, span, loc);
      spans := spans[span := spans[span].(location := loc, sizeClass := 0)];
      assert spans.Keys == old(spans.Keys);
    }

    // ---- Committing and decommitting ----

    method CommitSpan(span: SpanPtr)
      requires span in spans && spans[span].length >= 0
      modifies this`committedBytes
      ensures committedBytes == old(committedBytes) + PAGE_SIZE * spans[span].length
    {
      committedBytes := committedBytes + PAGE_SIZE * spans[span].length;
    }

    /** The system may refuse to take the memory back. */
    method DecommitSpan(span: SpanPtr) returns (ok: bool)
      requires span in spans && 0 <= PAGE_SIZE * spans[span].length <= committedBytes
      modifies this`committedBytes, this`calls
      ensures calls == old(calls) + 1 && ok == system.takesBack(old(calls))
      ensures committedBytes == old(committedBytes) - (if ok then PAGE_SIZE * spans[span].length else 0)
    {
      ok := system.takesBack(calls);
      calls := calls + 1;
      if ok {
        committedBytes := committedBytes - PAGE_SIZE * spans[span].length;
      }
    }

    // ---- Merging ----

    /** Decides whether `other` may be merged with `span`, and if so takes it off its list.
        In aggressive mode a normal neighbour of a returned span is decommitted first. */
    method CheckAndHandlePreMerge(span: SpanPtr, other: SpanPtr) returns (r: SpanPtr)
      requires Core({span}) && span in spans && spans[span].location != InUse
      requires Balanced(BytesAt(spans[span], OnReturned))
      requires other != NULL ==> other in spans && other != span
      modifies this`normal, this`returned, this`freeBytes, this`unmappedBytes, this`committedBytes, this`calls
      ensures calls >= old(calls) && (!aggressiveDecommit ==> calls == old(calls))
      ensures r == NULL ==>
        && unchanged(`normal, `returned, `freeBytes, `unmappedBytes, `committedBytes)
        && (other != NULL ==>
              && spans[other].location != spans[span].location
              && (aggressiveDecommit && spans[other].location == OnNormal && spans[span].location == OnReturned ==>
                    Refusal(old(calls), calls)))
      ensures r != NULL ==>
        && r == other && spans[other].location != InUse && Core({span, other})
        && Balanced(BytesAt(Union(spans[span], spans[other]), OnReturned))
        && (spans[other].location == spans[span].location || (aggressiveDecommit && spans[other].location == OnNormal))
        && committedBytes == old(committedBytes) -
             (if spans[other].location == spans[span].location then 0 else PAGE_SIZE * spans[other].length)
        && freeBytes == old(freeBytes) - BytesAt(spans[other], OnNormal)
        && unmappedBytes == old(unmappedBytes) - BytesAt(spans[other], OnReturned)
    {
      hide Geometry, Shelved, Supply;
      if other == NULL {
        return NULL;
      }
      if aggressiveDecommit && spans[other].location == OnNormal && spans[span].location == OnReturned {
        RoomBeside(spans, owner, pageMap, returned, unmappedBytes, span, other);
        var worked := DecommitSpan(other);
        if !worked {
          return NULL;
        }
      } else if spans[other].location != spans[span].location {
        return NULL;
      }
      RemoveFromFreeList(other, {span});
      assert {span} + {other} == {span, other};
      return other;
    }

    /** The descriptor and page map writes of merging `other` into span. */
    method Stretch(span: SpanPtr, other: SpanPtr)
      requires Supply(spans.Keys, pool, unused) && span in spans && other in spans && span != other
      requires Adjacent(spans[span], spans[other]) && spans[span].length >= 1 && spans[other].length >= 1
      modifies this`spans, this`pool, this`pageMap
      ensures Supply(spans.Keys, pool, unused) && spans == Absorb(old(spans), span, other)
      ensures pageMap == old(pageMap)[MergeEdge(old(spans[span]), old(spans[other])) := span]
    {
      hide Supply;
      var o := spans[other];
      DeleteSpan(other);
      ghost var live := spans.Keys;
      var s := spans[span];
      if o.start < s.start {
        s := s.(start := s.start - o.length, length := s.length + o.length);
        pageMap := pageMap[s.start := span];
      } else {
        s := s.(length := s.length + o.length);
        pageMap := pageMap[s.start + s.length - 1 := span];
      }
      spans := spans[span := s];
      assert spans.Keys == live;
    }

    /** Lets span take over the pages of the adjacent `other`, whose descriptor is dropped. */
    method TakeOver(span: SpanPtr, other: SpanPtr)
      requires Core({span, other}) && span in spans && other in spans && span != other
      requires spans[span].sizeClass == 0 && Adjacent(spans[span], spans[other])
      modifies this`spans, this`pool, this`pageMap, this`owner
      ensures Core({span})
      ensures spans == Absorb(old(spans), span, other) && owner.Keys == old(owner.Keys)
      ensures old(spans[span].length) >= 1 && old(spans[other].length) >= 1
    {
      hide Geometry, Shelved, Supply, Reowned;
      AbsorbGeometry(spans, owner, pageMap, span, other);
      AbsorbShelved(spans, owner, {span, other}, OnNormal, normal, freeBytes, span, other);
      AbsorbShelved(spans, owner, {span, other}, OnReturned, returned, unmappedBytes, span, other);
      assert {span, other} - {other} == {span};
      Stretch(span, other);
      owner := Reowned(owner, other, span);
    }

    /** Merges a held span with its left neighbour if the two are alike. */
    method MergeLeft(span: SpanPtr)
      requires Core({span}) && span in spans && spans[span].location != InUse && spans[span].sizeClass == 0
      requires Balanced(BytesAt(spans[span], OnReturned))
      modifies this`spans, this`pool, this`pageMap, this`owner
      modifies this`normal, this`returned, this`freeBytes, this`unmappedBytes, this`committedBytes, this`calls
      ensures calls >= old(calls)
      ensures Core({span}) && span in spans && Balanced(BytesAt(spans[span], OnReturned))
      ensures Grows(old(spans), spans, span) && owner.Keys == old(owner.Keys)
      ensures committedBytes <= old(committedBytes) && freeBytes <= old(freeBytes)
      ensures freeBytes + unmappedBytes + PAGE_SIZE * spans[span].length == old(freeBytes + unmappedBytes + PAGE_SIZE * spans[span].length)
      ensures !aggressiveDecommit ==>
        && committedBytes == old(committedBytes)
        && freeBytes + BytesAt(spans[span], OnNormal) == old(freeBytes + BytesAt(spans[span], OnNormal))
        && (old(Coalesced(spans, {span})) ==> Coalesced(spans, {span}) && LeftClear(spans, {span}, span))
    {
      hide Geometry, Shelved, Supply, Used, NoSmaller, Coalesced, LeftClear;
      ghost var s0 := spans;
      SupplyNull(spans.Keys, pool, unused);
      NoSmallerSame(spans);
      LeftDescriptor(spans, owner, pageMap, span);
      var p := spans[span].start;
      var prev := GetDescriptor(p - 1);
      prev := CheckAndHandlePreMerge(span, prev);
      if prev != NULL {
        AbsorbClient(spans, span, prev);
        if !aggressiveDecommit && Coalesced(s0, {span}) {
          AbsorbLeftClear(spans, {span}, span, prev);
        }
        TakeOver(span, prev);
      } else if !aggressiveDecommit {
        LeftNeighbour(spans, owner, pageMap, {span}, span);
      }
    }

    /** Merges a held span with its right neighbour if the two are alike. */
    method MergeRight(span: SpanPtr)
      requires Core({span}) && span in spans && spans[span].location != InUse && spans[span].sizeClass == 0
      requires Balanced(BytesAt(spans[span], OnReturned))
      modifies this`spans, this`pool, this`pageMap, this`owner
      modifies this`normal, this`returned, this`freeBytes, this`unmappedBytes, this`committedBytes, this`calls
      ensures calls >= old(calls)
      ensures Core({span}) && span in spans && Balanced(BytesAt(spans[span], OnReturned))
      ensures Grows(old(spans), spans, span) && owner.Keys == old(owner.Keys)
      ensures committedBytes <= old(committedBytes) && freeBytes <= old(freeBytes)
      ensures freeBytes + unmappedBytes + PAGE_SIZE * spans[span].length == old(freeBytes + unmappedBytes + PAGE_SIZE * spans[span].length)
      ensures !aggressiveDecommit ==>
        && committedBytes == old(committedBytes)
        && freeBytes + BytesAt(spans[span], OnNormal) == old(freeBytes + BytesAt(spans[span], OnNormal))
        && (old(Coalesced(spans, {span}) && LeftClear(spans, {span}, span)) ==>
              Coalesced(spans, {span}) && LeftClear(spans, {span}, span) && RightClear(spans, {span}, span))
    {
      hide Geometry, Shelved, Supply, Used, NoSmaller, Coalesced, LeftClear, RightClear;
      ghost var s0 := spans;
      SupplyNull(spans.Keys, pool, unused);
      NoSmallerSame(spans);
      RightDescriptor(spans, owner, pageMap, span);
      var q := spans[span].start + spans[span].length;
      var next := GetDescriptor(q);
      next := CheckAndHandlePreMerge(span, next);
      if next != NULL {
        AbsorbClient(spans, span, next);
        if !aggressiveDecommit && Coalesced(s0, {span}) && LeftClear(s0, {span}, span) {
          AbsorbRightClear(spans, {span}, span, next);
        }
        TakeOver(span, next);
      } else if !aggressiveDecommit {
        RightNeighbour(spans, owner, pageMap, {span}, span);
      }
    }

    /** In aggressive mode a held normal span is decommitted before it is merged. */
    method DecommitEagerly(span: SpanPtr)
      requires Core({span}) && span in spans && spans[span].location != InUse && spans[span].sizeClass == 0
      requires Balanced(BytesAt(spans[span], OnReturned))
      modifies this`spans, this`committedBytes, this`calls
      ensures calls >= old(calls)
      ensures Core({span}) && span in spans && Balanced(BytesAt(spans[span], OnReturned))
      ensures spans[span].location != InUse && spans[span].sizeClass == 0 && spans[span].length == old(spans[span].length)
      ensures Used(spans) == Used(old(spans)) && NoSmaller(old(spans), spans) && committedBytes <= old(committedBytes)
      ensures !aggressiveDecommit ==> spans == old(spans) && committedBytes == old(committedBytes)
    {
      hide Geometry, Shelved, Supply, Used, NoSmaller;
      NoSmallerSame(spans);
      if aggressiveDecommit && spans[span].location == OnNormal {
        RoomBesideHeld(spans, owner, pageMap, returned, unmappedBytes, span);
        var ok := DecommitSpan(span);
        if ok {
          RelabelClient(spans, span, OnReturned);
          Mark(span, OnReturned);
        }
      }
    }

    /** Lists the one held span. */
    method Enlist(span: SpanPtr)
      requires Core({span}) && span in spans && spans[span].location != InUse
      requires Balanced(BytesAt(spans[span], OnReturned))
      modifies this`normal, this`returned, this`freeBytes, this`unmappedBytes
      ensures Core({}) && Balanced(0)
      ensures freeBytes == old(freeBytes) + BytesAt(spans[span], OnNormal)
      ensures unmappedBytes == old(unmappedBytes) + BytesAt(spans[span], OnReturned)
    {
      hide Geometry, Shelved, Supply;
      LinkShelved(spans, owner, pageMap, {span}, OnNormal, normal, freeBytes, span);
      LinkShelved(spans, owner, pageMap, {span}, OnReturned, returned, unmappedBytes, span);
      PrependToFreeList(span);
      assert {span} - {span} == {};
    }

    /** Coalesces a span held off the lists with its free neighbours and lists the result. */
    method MergeIntoFreeList(span: SpanPtr)
      requires Core({span}) && span in spans && spans[span].location != InUse && spans[span].sizeClass == 0
      requires Balanced(BytesAt(spans[span], OnReturned))
      modifies this`spans, this`pool, this`pageMap, this`owner
      modifies this`normal, this`returned, this`freeBytes, this`unmappedBytes, this`committedBytes, this`calls
      ensures calls >= old(calls)
      ensures Core({}) && Balanced(0)
      ensures Used(spans) == Used(old(spans)) && owner.Keys == old(owner.Keys) && NoSmaller(old(spans), spans)
      ensures span in spans && spans[span].location != InUse && spans[span].length >= old(spans[span].length)
      ensures freeBytes + unmappedBytes == old(freeBytes + unmappedBytes) + PAGE_SIZE * old(spans[span].length)
      ensures freeBytes <= old(freeBytes) + BytesAt(old(spans[span]), OnNormal)
      ensures committedBytes <= old(committedBytes)
      ensures !aggressiveDecommit ==>
        && committedBytes == old(committedBytes)
        && freeBytes == old(freeBytes) + BytesAt(old(spans[span]), OnNormal)
        && (old(Coalesced(spans, {span})) ==> Coalesced(spans, {}))
    {
      hide Core, Used, NoSmaller, Coalesced, LeftClear, RightClear;
      ghost var s0 := spans;
      DecommitEagerly(span);
      ghost var s1 := spans;
      MergeLeft(span);
      ghost var s2 := spans;
      MergeRight(span);
      NoSmallerSteps(s0, s1, s2);
      NoSmallerSteps(s0, s2, spans);
      CoreFacts({span}, span);
      if !aggressiveDecommit && Coalesced(s0, {span}) {
        LinkCoalesced(spans, {span}, span);
        assert {span} - {span} == {};
      }
      Enlist(span);
    }

    // ---- Releasing memory to the system ----

    /** Tries to give one normal span's memory back. */
    method ReleaseSpan(s: SpanPtr) returns (n: nat)
      requires Core({}) && Balanced(0) && s in spans && spans[s].location == OnNormal
      modifies this`spans, this`pool, this`pageMap, this`owner
      modifies this`normal, this`returned, this`freeBytes, this`unmappedBytes, this`committedBytes, this`calls
      ensures calls >= old(calls)
      ensures Core({}) && Balanced(0)
      ensures n == 0 ==> Refusal(old(calls), calls)
      ensures n == 0 ==> unchanged(`spans, `pool, `pageMap, `owner, `normal, `returned, `freeBytes, `unmappedBytes, `committedBytes)
      ensures n != 0 ==> n == old(spans[s].length)
      ensures ReleasedBy(old(See()), See(), n, !aggressiveDecommit)
    {
      hide Core, Used, NoSmaller, Coalesced;
      ReleasedNone(See(), !aggressiveDecommit);
      CoreRoom(s);
      CoreFacts({}, s);
      ghost var calls0 := calls;
      var ok := DecommitSpan(s);
      assert !ok ==> !system.takesBack(calls0);
      if ok {
        RemoveFromFreeList(s, {});
        assert {} + {s} == {s};
        n := spans[s].length;
        RelabelClient(spans, s, OnReturned);
        ghost var s0 := spans;
        Mark(s, OnReturned);
        RelabelCoalesced(s0, s, OnReturned);
        ghost var s1 := spans;
        MergeIntoFreeList(s);
        NoSmallerSteps(s0, s1, spans);
        return;
      }
      return 0;
    }

    /** The first span of the given large set with at least n pages, in best-fit order. */
    method UpperBound(large: set<SpanPtr>, n: int) returns (r: SpanPtr)
      requires large <= spans.Keys && NULL !in large
      ensures FirstLarge(spans, large, n, r)
    {
      var c := set x | x in large && spans[x].length >= n;
      if c == {} {
        assert forall x | x in large :: spans[x].length >= n ==> x in c;
        return NULL;
      }
      LeastExists(spans, c);
      r :| r in c && forall x | x in c :: !BestFitLess(spans[x], spans[r]);
    }

    /** The span to release next: the last of the list at the release index, if any. */
    method ReleaseCandidate() returns (s: SpanPtr)
      requires Core({}) && releaseIndex <= MAX_PAGES
      ensures |normal.small| == MAX_PAGES && (s == NULL <==> EmptyAt(normal, releaseIndex))
      ensures s != NULL ==> s in spans && spans[s].location == OnNormal
    {
      hide Geometry, Shelved, Supply;
      SupplyNull(spans.Keys, pool, unused);
      ListedAt(spans, owner, OnNormal, normal, freeBytes);
      s := NULL;
      if releaseIndex == MAX_PAGES {
        if normal.large != {} {
          s := UpperBound(normal.large, 0);
        }
      } else if normal.small[releaseIndex] != [] {
        s := normal.small[releaseIndex][|normal.small[releaseIndex]| - 1];
        assert s in normal.small[releaseIndex];
      }
    }

    /** The list the release loop looks at next. */
    ghost function NextIndex(): int
      reads this`releaseIndex
    {
      if releaseIndex > MAX_PAGES then 0 else releaseIndex
    }

    /** Looks at one list and releases its last span, if there is one. */
    method ReleaseStep() returns (n: nat, refused: bool)
      requires Core({}) && Balanced(0) && releaseIndex <= MAX_PAGES + 1
      modifies this`spans, this`pool, this`pageMap, this`owner, this`releaseIndex
      modifies this`normal, this`returned, this`freeBytes, this`unmappedBytes, this`committedBytes, this`calls
      ensures calls >= old(calls)
      ensures Core({}) && Balanced(0) && releaseIndex <= MAX_PAGES + 1 && |normal.small| == MAX_PAGES
      ensures !refused ==> NextIndex() == Round(old(NextIndex()), 1)
      ensures ReleasedBy(old(See()), See(), n, !aggressiveDecommit)
      ensures refused ==> n == 0 && Refusal(old(calls), calls)
      ensures n == 0 && !refused ==> normal == old(normal) && EmptyAt(normal, old(NextIndex()))
    {
      hide Geometry, Shelved, Supply, ReleasedBy;
      ReleasedNone(See(), !aggressiveDecommit);
      if releaseIndex > MAX_PAGES {
        releaseIndex := 0;
      }
      n, refused := 0, false;
      var s := ReleaseCandidate();
      if s != NULL {
        SpanFacts(spans, owner, pageMap, s);
        n := ReleaseSpan(s);
        ListedAt(spans, owner, OnNormal, normal, freeBytes);
        if n == 0 {
          refused := true;
          return;
        }
      }
      releaseIndex := releaseIndex + 1;
    }

    /** One round over the normal lists, releasing the last span of each until enough. */
    method ReleaseRound(wanted: int) returns (released: nat, refused: bool)
      requires Core({}) && Balanced(0) && releaseIndex <= MAX_PAGES + 1 && wanted > 0
      modifies this`spans, this`pool, this`pageMap, this`owner, this`releaseIndex
      modifies this`normal, this`returned, this`freeBytes, this`unmappedBytes, this`committedBytes, this`calls
      ensures calls >= old(calls)
      ensures Core({}) && Balanced(0) && releaseIndex <= MAX_PAGES + 1
      ensures ReleasedBy(old(See()), See(), released, !aggressiveDecommit)
      ensures refused ==> Refusal(old(calls), calls)
      ensures !refused && released < wanted ==> released > 0 || freeBytes == 0
    {
      hide Geometry, Shelved, Supply, ReleasedBy, Refusal;
      ghost var r0 := NextIndex();
      ghost var v0 := See();
      released, refused := 0, false;
      ReleasedNone(v0, !aggressiveDecommit);
      ListedAt(spans, owner, OnNormal, normal, freeBytes);
      var i := 0;
      while i < MAX_PAGES + 1 && released < wanted
        invariant 0 <= i <= MAX_PAGES + 1 && |normal.small| == MAX_PAGES
        invariant Core({}) && Balanced(0) && releaseIndex <= MAX_PAGES + 1
        invariant ReleasedBy(v0, See(), released, !aggressiveDecommit) && calls >= old(calls)
        invariant i <= MAX_PAGES ==> NextIndex() == Round(r0, i)
        invariant released == 0 ==> forall j | 0 <= j < i :: EmptyAt(normal, Round(r0, j))
      {
        ghost var v1, calls1 := See(), calls;
        var n;
        n, refused := ReleaseStep();
        RefusalWithin(old(calls), calls1, calls, calls);
        ReleasedSteps(v0, v1, See(), released, n, !aggressiveDecommit);
        if refused {
          return;
        }
        released := released + n;
        i := i + 1;
      }
      if released == 0 {
        RoundEmpty(spans, owner, OnNormal, normal, freeBytes, r0);
      }
    }

    /** Releases spans round robin until enough pages are back with the system, the
        system refuses, or no normal free span is left. */
    method ReleaseAtLeastNPages(wanted: int) returns (released: nat)
      requires Valid()
      modifies this`spans, this`pool, this`pageMap, this`owner, this`releaseIndex
      modifies this`normal, this`returned, this`freeBytes, this`unmappedBytes, this`committedBytes, this`calls
      ensures calls >= old(calls)
      ensures Valid() && ReleasedBy(old(See()), See(), released, !aggressiveDecommit)
      ensures released >= wanted || freeBytes == 0 || Refusal(old(calls), calls)
    {
      hide Core, ReleasedBy, Refusal;
      released := 0;
      ghost var v0 := See();
      ReleasedNone(v0, !aggressiveDecommit);
      while released < wanted && freeBytes > 0
        invariant Valid() && calls >= old(calls)
        invariant ReleasedBy(v0, See(), released, !aggressiveDecommit)
        decreases freeBytes
      {
        ghost var v1, calls1 := See(), calls;
        var n, refused := ReleaseRound(wanted - released);
        RefusalWithin(old(calls), calls1, calls, calls);
        ReleasedBytes(v1, See(), n, !aggressiveDecommit);
        ReleasedSteps(v0, v1, See(), released, n, !aggressiveDecommit);
        released := released + n;
        if refused {
          return;
        }
      }
    }

    // ---- Deleting ----

    /** How long to wait until more memory is released, after some pages were. */
    static function Wait(rate: real, pages: nat): (wait: int)
      requires rate > 0.0
      ensures 0 <= wait <= MAX_RELEASE_DELAY
    {
      var wait := 1000.0 / rate * (pages as real);
      if wait > MAX_RELEASE_DELAY as real then MAX_RELEASE_DELAY else wait.Floor
    }

    /** Counts freed pages and now and then releases some memory, at least a page if there
        is any. */
    method IncrementalScavenge(n: nat) returns (ghost released: nat)
      requires Valid()
      modifies this`scavengeCounter
      modifies this`spans, this`pool, this`pageMap, this`owner, this`releaseIndex
      modifies this`normal, this`returned, this`freeBytes, this`unmappedBytes, this`committedBytes, this`calls
      ensures calls >= old(calls)
      ensures Valid() && ReleasedBy(old(See()), See(), released, !aggressiveDecommit)
      ensures if old(scavengeCounter) >= n then scavengeCounter == old(scavengeCounter) - n
              else scavengeCounter == if releaseRate <= TINY_RATE || released == 0 then DEFAULT_RELEASE_DELAY else Wait(releaseRate, released)
      ensures old(scavengeCounter) < n && releaseRate > TINY_RATE ==> released >= 1 || freeBytes == 0 || Refusal(old(calls), calls)
      ensures old(scavengeCounter) >= n || releaseRate <= TINY_RATE ==> released == 0 && See() == old(See())
    {
      hide Valid, ReleasedBy;
      ReleasedNone(See(), !aggressiveDecommit);
      released := 0;
      scavengeCounter := scavengeCounter - n;
      if scavengeCounter >= 0 {
        return;
      }
      var rate := releaseRate;
      if rate <= TINY_RATE {
        scavengeCounter := DEFAULT_RELEASE_DELAY;
        return;
      }
      var r := ReleaseAtLeastNPages(1);
      released := r;
      if r == 0 {
        scavengeCounter := DEFAULT_RELEASE_DELAY;
      } else {
        scavengeCounter := Wait(rate, r);
      }
    }

    /** Gives a span back to the heap. */
    method Delete(span: SpanPtr)
      requires Valid() && span in spans && spans[span].location == InUse
      modifies this
      ensures Valid() && aggressiveDecommit == old(aggressiveDecommit) && taken == old(taken) && slack == old(slack)
      ensures mapped == old(mapped) && calls >= old(calls)
      ensures Used(spans) == Used(old(spans)) - {span} && owner.Keys == old(owner.Keys)
      ensures NoSmaller(old(spans), spans) && FitsFree(spans, old(spans[span].length))
      ensures freeBytes + unmappedBytes == old(freeBytes + unmappedBytes + PAGE_SIZE * spans[span].length)
      ensures !aggressiveDecommit && old(Coalesced(spans, {})) ==> Coalesced(spans, {})
    {
      hide Core, Used, NoSmaller, FitsFree, Coalesced;
      ghost var s0 := spans;
      HeldOrNot({}, span);
      assert {} + {span} == {span};
      CoreFacts({}, span);
      FreeClient(spans, span);
      RelabelCoalesced(spans, span, OnNormal);
      var n := spans[span].length;
      Mark(span, OnNormal);
      ghost var s1 := spans;
      MergeIntoFreeList(span);
      NoSmallerSteps(s0, s1, spans);
      FitsFreeLater(s1, spans, n);
      ghost var v2 := See();
      var released := IncrementalScavenge(n);
      NoSmallerSteps(s0, v2.spans, spans);
      FitsFreeLater(v2.spans, spans, n);
    }

    // ---- The heap limit ----

    /** n more pages in memory would stay within the limit. */
    ghost predicate Room(n: int)
      reads this`taken, this`unmappedBytes
    {
      limit > 0 ==> PAGE_SIZE * (taken + n) - unmappedBytes <= PAGE_SIZE * limit
    }

    /** May n more pages be brought into memory? If not, and if allowed to, first tries
        to release as many. */
    method EnsureLimit(n: nat, withRelease: bool) returns (ok: bool, ghost released: nat)
      requires Valid()
      modifies this`spans, this`pool, this`pageMap, this`owner, this`releaseIndex
      modifies this`normal, this`returned, this`freeBytes, this`unmappedBytes, this`committedBytes, this`calls
      ensures calls >= old(calls)
      ensures Valid() && ReleasedBy(old(See()), See(), released, !aggressiveDecommit)
      ensures limit == 0 || !withRelease ==> unchanged(this)
      ensures limit == 0 ==> ok
      ensures ok ==> Room(n)
      ensures !withRelease ==> (ok <==> Room(n))
      ensures withRelease && !ok ==> Refusal(old(calls), calls) || freeBytes == 0
      // Releasing works unless it is refused: a normal span of n pages is enough.
      ensures withRelease && !aggressiveDecommit && slack == 0 && old(freeBytes) >= PAGE_SIZE * n ==>
        ok || Refusal(old(calls), calls)
      ensures old(Room(n)) ==> ok && unchanged(this)
    {
      hide Geometry, Shelved, Supply;
      ReleasedNone(See(), !aggressiveDecommit);
      released := 0;
      if limit == 0 {
        return true, 0;
      }
      ShelvedBytes(spans, owner, {}, OnReturned, returned, unmappedBytes);
      ShelvedBytes(spans, owner, {}, OnNormal, normal, freeBytes);
      var takenPages := taken;
      takenPages := takenPages - unmappedBytes / PAGE_SIZE;
      if takenPages + n > limit && withRelease {
        var r := ReleaseAtLeastNPages(takenPages + n - limit);
        released := r;
        takenPages := takenPages - r;
      }
      ok := takenPages + n <= limit;
    }

    // ---- Carving and splitting ----

    /** Creates, records and lists the descriptor of a carved span's tail. */
    method ListLeftover(p: int, extra: int, loc: Location) returns (leftover: SpanPtr)
      requires Supply(spans.Keys, pool, unused) && extra >= 1 && loc != InUse
      requires |normal.small| == |returned.small| == MAX_PAGES
      modifies this`spans, this`pool, this`unused, this`taken, this`slack, this`pageMap
      modifies this`normal, this`returned, this`freeBytes, this`unmappedBytes
      ensures Supply(spans.Keys, pool, unused) && taken - old(taken) == slack - old(slack) >= 0
      ensures leftover !in old(spans) && leftover != NULL && spans == old(spans)[leftover := Rec(p, extra, loc, 0)]
      ensures pageMap == old(pageMap)[p := leftover][p + extra - 1 := leftover]
      ensures normal == PutOn(old(normal), OnNormal, leftover, spans[leftover])
      ensures returned == PutOn(old(returned), OnReturned, leftover, spans[leftover])
      ensures freeBytes == old(freeBytes) + BytesAt(spans[leftover], OnNormal)
      ensures unmappedBytes == old(unmappedBytes) + BytesAt(spans[leftover], OnReturned)
    {
      hide Supply, PutOn;
      leftover := NewSpan(p, extra);
      ghost var live := spans.Keys;
      spans := spans[leftover := spans[leftover].(location := loc)];
      assert spans.Keys == live;
      RecordSpan(leftover);
      PrependToFreeList(leftover);
    }

    /** Cuts a held span that is now in use down to n pages and lists the rest at loc. */
    method CarveTail(span: SpanPtr, n: int, loc: Location) returns (leftover: SpanPtr)
      requires Core({span}) && span in spans && spans[span].sizeClass == 0
      requires 0 < n < spans[span].length && loc != InUse && spans[span].location == InUse
      modifies this`spans, this`pool, this`unused, this`taken, this`slack, this`pageMap, this`owner
      modifies this`normal, this`returned, this`freeBytes, this`unmappedBytes
      ensures Core({span}) && leftover !in old(spans) && spans == Cut(old(spans), span, n, leftover, loc)
      ensures owner.Keys == old(owner.Keys) && taken - old(taken) == slack - old(slack) >= 0
      ensures freeBytes == old(freeBytes) + BytesAt(Tail(old(spans[span]), n, loc), OnNormal)
      ensures unmappedBytes == old(unmappedBytes) + BytesAt(Tail(old(spans[span]), n, loc), OnReturned)
    {
      hide Geometry, Shelved, Supply, PutOn, BytesAt, CutOwner;
      ghost var s0 := spans;
      ghost var lists := (normal, freeBytes, returned, unmappedBytes);
      ghost var map0 := pageMap;
      var start, extra := spans[span].start, spans[span].length - n;
      ShelvedShape(spans, owner, {span}, OnNormal, normal, freeBytes);
      ShelvedShape(spans, owner, {span}, OnReturned, returned, unmappedBytes);
      leftover := ListLeftover(start + n, extra, loc);
      ghost var live := spans.Keys;
      CutHeld(s0, owner, map0, {span}, lists.0, lists.1, lists.2, lists.3, span, n, leftover, loc);
      spans := spans[span := spans[span].(length := n)];
      pageMap := pageMap[start + n - 1 := span];
      owner := CutOwner(owner, span, start + n, leftover);
      assert spans == Cut(s0, span, n, leftover, loc);
      assert spans.Keys == live;
    }

    /** Takes the first n pages of a free span into use, recommitting them if need be. */
    method Carve(span: SpanPtr, n: int)
      requires Valid() && span in spans && spans[span].location != InUse && 1 <= n <= spans[span].length
      requires spans[span].location == OnReturned ==> Room(n)
      modifies this`spans, this`pool, this`unused, this`taken, this`slack, this`pageMap, this`owner
      modifies this`normal, this`returned, this`freeBytes, this`unmappedBytes, this`committedBytes
      ensures Valid() && Serves(old(See()), See(), span, n, !aggressiveDecommit)
      ensures FrontTaken(old(spans), spans, span, n)
      ensures taken - old(taken) == slack - old(slack) >= 0
    {
      hide Core, Used, Coalesced, FrontTaken;
      var loc := spans[span].location;
      CoreFacts({}, span);
      TakeFront(span, n);
      if loc == OnReturned {
        CommitSpan(span);
      }
    }

    /** Carving, but for the commitment of the pages. */
    method TakeFront(span: SpanPtr, n: int)
      requires Core({}) && span in spans && spans[span].location != InUse && 1 <= n <= spans[span].length
      modifies this`spans, this`pool, this`unused, this`taken, this`slack, this`pageMap, this`owner
      modifies this`normal, this`returned, this`freeBytes, this`unmappedBytes
      ensures Core({}) && owner.Keys == old(owner.Keys) && taken - old(taken) == slack - old(slack) >= 0
      ensures FrontTaken(old(spans), spans, span, n) && span in spans && spans[span].length == n
      ensures Used(spans) == Used(old(spans))[span := Rec(spans[span].start, n, InUse, 0)] && span !in Used(old(spans))
      ensures Coalesced(old(spans), {}) ==> Coalesced(spans, {})
      ensures freeBytes == old(freeBytes) - BytesAt(Head(old(spans[span]), n), OnNormal)
      ensures unmappedBytes == old(unmappedBytes) - BytesAt(Head(old(spans[span]), n), OnReturned)
    {
      hide Core, Geometry, Used, Coalesced, FrontTaken;
      var loc := spans[span].location;
      CoreGeometry({});
      ghost var s0, o0, m0 := spans, owner, pageMap;
      TakeOut(span);
      FrontTakenWhole(s0, span);
      var extra := spans[span].length - n;
      if extra > 0 {
        var leftover := CarveTail(span, n, loc);
        ServePart(s0, o0, m0, span, n, leftover);
        FrontTakenPart(s0, span, n, leftover);
      }
      HeldOrNot({span}, span);
      assert {span} - {span} == {};
    }

    /** Takes a free span off its list and marks it used. */
    method TakeOut(span: SpanPtr)
      requires Core({}) && span in spans && spans[span].location != InUse
      modifies this`spans, this`normal, this`returned, this`freeBytes, this`unmappedBytes
      ensures Core({span}) && spans == Relabel(old(spans), span, InUse)
      ensures freeBytes == old(freeBytes) - BytesAt(old(spans[span]), OnNormal)
      ensures unmappedBytes == old(unmappedBytes) - BytesAt(old(spans[span]), OnReturned)
      ensures Used(spans) == Used(old(spans))[span := spans[span]] && span !in Used(old(spans))
      ensures Coalesced(old(spans), {}) ==> Coalesced(spans, {})
    {
      hide Core, Used, Coalesced;
      RemoveFromFreeList(span, {});
      assert {} + {span} == {span};
      ServeWhole(spans, span);
      Mark(span, InUse);
    }

    /** The descriptor and page map writes of Split. */
    method SplitOff(span: SpanPtr, n: int) returns (leftover: SpanPtr)
      requires Supply(spans.Keys, pool, unused) && span in spans && 0 < n < spans[span].length
      modifies this`spans, this`pool, this`unused, this`taken, this`slack, this`pageMap
      ensures Supply(spans.Keys, pool, unused) && taken - old(taken) == slack - old(slack) >= 0
      ensures leftover !in old(spans) && leftover != NULL && spans == Cut(old(spans), span, n, leftover, InUse)
      ensures var r := old(spans[span]);
              pageMap == old(pageMap)[r.start + n := leftover][r.End() - 1 := leftover][r.start + n - 1 := span]
    {
      hide Supply;
      var start, extra := spans[span].start, spans[span].length - n;
      leftover := NewSpan(start + n, extra);
      ghost var live := spans.Keys;
      RecordSpan(leftover);
      pageMap := pageMap[start + n - 1 := span];
      spans := spans[span := spans[span].(length := n)];
      assert spans == Cut(old(spans), span, n, leftover, InUse);
      assert spans.Keys == live;
    }

    /** Splits a used span in two; returns the second part. */
    method Split(span: SpanPtr, n: int) returns (leftover: SpanPtr)
      requires Valid() && span in spans && spans[span].location == InUse && spans[span].sizeClass == 0
      requires 0 < n < spans[span].length
      modifies this`spans, this`pool, this`unused, this`taken, this`slack, this`pageMap, this`owner
      ensures Valid() && leftover !in old(spans) && taken - old(taken) == slack - old(slack) >= 0
      ensures spans == Cut(old(spans), span, n, leftover, InUse)
      ensures Used(spans) == Used(old(spans))[span := Head(old(spans[span]), n)][leftover := Tail(old(spans[span]), n, InUse)]
      ensures owner.Keys == old(owner.Keys) && NoSmaller(old(spans), spans)
      ensures Coalesced(old(spans), {}) ==> Coalesced(spans, {})
    {
      hide Geometry, Shelved, Supply, Used, NoSmaller, Coalesced;
      ghost var s0, o0, m0 := spans, owner, pageMap;
      leftover := SplitOff(span, n);
      SplitClient(s0, o0, m0, span, n, leftover);
      SplitShelved(s0, o0, m0, OnNormal, normal, freeBytes, span, n, leftover);
      SplitShelved(s0, o0, m0, OnReturned, returned, unmappedBytes, span, n, leftover);
      CutGeometry(s0, o0, m0, span, n, leftover, InUse);
      owner := CutOwner(owner, span, s0[span].start + n, leftover);
    }

    /** Points the interior pages of a span at it. */
    method MapInterior(span: SpanPtr)
      requires Geometry(spans, owner, pageMap) && span in spans
      modifies this`pageMap
      ensures pageMap == Filled(old(pageMap), spans[span].start, spans[span].End(), span)
    {
      hide Geometry, Filled;
      SpanFacts(spans, owner, pageMap, span);
      FilledStep(pageMap, spans[span].start + 1, spans[span].start + 1, span);
      FilledInterior(spans, owner, pageMap, span);
      ghost var m0 := pageMap;
      var start, length := spans[span].start, spans[span].length;
      var i := 1;
      while i < length - 1
        invariant 1 <= i && (i == 1 || i <= length - 1)
        invariant pageMap == Filled(m0, start + 1, start + i, span)
      {
        pageMap := pageMap[start + i := span];
        FilledStep(m0, start + 1, start + i, span);
        i := i + 1;
      }
    }

    /** Marks a used span as holding objects of a size class. */
    method RegisterSizeClass(span: SpanPtr, sc: nat)
      requires Valid() && span in spans && spans[span].location == InUse
      modifies this`spans, this`pageMap
      ensures Valid() && Used(spans) == Used(old(spans))[span := old(spans[span]).(sizeClass := sc)]
      ensures Coalesced(old(spans), {}) ==> Coalesced(spans, {})
      ensures pageMap == Filled(old(pageMap), old(spans[span]).start, old(spans[span]).End(), span)
    {
      hide Geometry, Shelved, Supply, Used, Coalesced, Filled;
      ghost var live := spans.Keys;
      ClassifyGeometry(spans, owner, pageMap, span, sc);
      ClassifyShelved(spans, owner, {}, OnNormal, normal, freeBytes, span, sc);
      ClassifyShelved(spans, owner, {}, OnReturned, returned, unmappedBytes, span, sc);
      ClassifyClient(spans, owner, pageMap, span, sc);
      MapInterior(span);
      spans := spans[span := spans[span].(sizeClass := sc)];
      assert spans.Keys == live;
    }

    // ---- Allocating ----

    /** The first fitting normal large span and the better of it and the first returned one. */
    method FindBest(n: int) returns (bestNormal: SpanPtr, best: SpanPtr)
      requires Valid()
      ensures best == NULL ==> !FitsFree(spans, LargeEnough(n))
      ensures best != NULL ==>
        && best in spans && spans[best].location != InUse && spans[best].length >= n && FitsFree(spans, LargeEnough(n))
      ensures best != NULL && best == bestNormal ==> spans[best].location == OnNormal
      ensures NoneShorter(spans, n, MAX_PAGES + 1) ==>
        (best == NULL ==> !FitsFree(spans, n)) && (best != NULL ==> BestFit(spans, best, n))
      ensures bestNormal != NULL ==> best != NULL && PAGE_SIZE * n <= freeBytes
      ensures bestNormal == NULL ==> forall x | x in normal.large :: x in spans && spans[x].length < n
    {
      hide Geometry, Shelved, Supply, BestFit, NoneShorter, FitsFree;
      SupplyNull(spans.Keys, pool, unused);
      ListedAt(spans, owner, OnNormal, normal, freeBytes);
      ListedAt(spans, owner, OnReturned, returned, unmappedBytes);
      bestNormal := UpperBound(normal.large, n);
      best := bestNormal;
      var c := UpperBound(returned.large, n);
      if c != NULL && (bestNormal == NULL || BestFitLess(spans[c], spans[best])) {
        best := c;
      }
      LargeBest(spans, owner, normal, freeBytes, returned, unmappedBytes, n, bestNormal, c, best);
      if bestNormal != NULL {
        ListFacts(spans, owner, pageMap, {}, OnNormal, normal, freeBytes, bestNormal);
      }
    }

    /** Serves n pages from the large spans, best fit over both locations. It calls itself
        at most once: the second time there is room, so nothing needs releasing. */
    method AllocLarge(n: int) returns (r: SpanPtr, ghost released: nat)
      requires Valid() && n >= 1
      modifies this`spans, this`pool, this`unused, this`taken, this`slack, this`pageMap, this`owner, this`releaseIndex
      modifies this`normal, this`returned, this`freeBytes, this`unmappedBytes, this`committedBytes, this`calls
      ensures calls >= old(calls)
      ensures Valid() && taken - old(taken) == slack - old(slack) >= 0
      ensures r == NULL ==> ReleasedBy(old(See()), See(), released, !aggressiveDecommit)
      ensures r != NULL ==> Serves(old(See()), See(), r, n, !aggressiveDecommit)
      ensures old(Room(n) && NoneShorter(spans, n, MAX_PAGES + 1)) && r == NULL ==> unchanged(this) && !FitsFree(spans, n)
      ensures old(Room(n) && NoneShorter(spans, n, MAX_PAGES + 1)) && r != NULL ==> BestFit(old(spans), r, n)
      ensures old(Room(n)) && FitsFree(old(spans), LargeEnough(n)) ==> r != NULL
      // With enough free memory the limit is no obstacle, unless releasing was refused or
      // other memory was taken past the limit.
      ensures FitsFree(old(spans), LargeEnough(n)) && old(freeBytes) >= PAGE_SIZE * n && !aggressiveDecommit && old(slack) == 0 ==>
        r != NULL || Refusal(old(calls), calls)
      ensures r == NULL && !aggressiveDecommit && slack == 0 && !Refusal(old(calls), calls) ==>
        forall x | x in old(normal.large) :: x in old(spans) && old(spans)[x].length < n
      decreases if Room(n) then 0 else 1
    {
      hide Valid, ReleasedBy, Serves, BestFit, NoneShorter, FitsFree, FrontTaken, Refusal;
      released := 0;
      ReleasedNone(See(), !aggressiveDecommit);
      var bestNormal, best := FindBest(n);
      if best == bestNormal {
        if best != NULL {
          Carve(best, n);
        }
        return best, released;
      }
      var ok, _ := EnsureLimit(n, false);
      if ok {
        Carve(best, n);
        return best, released;
      }
      ghost var v0 := See();
      ok, released := EnsureLimit(n, true);
      if ok {
        ReleasedFits(v0, See(), released, !aggressiveDecommit, LargeEnough(n));
        ghost var v1, released1, calls1 := See(), released, calls;
        r, released := AllocLarge(n);
        RefusalWithin(old(calls), calls1, calls, calls);
        ServesAfterRelease(v0, v1, See(), released1, r, n, !aggressiveDecommit);
        return;
      }
      assert !Refusal(old(calls), calls) && !aggressiveDecommit && slack == 0 ==> bestNormal == NULL;
      return NULL, released;
    }

    /** The front of the list of m pages at loc, NULL if the list is empty. */
    method Front(loc: Location, ghost n: int, m: int) returns (k: SpanPtr)
      requires Valid() && loc != InUse && 1 <= n <= m <= MAX_PAGES
      ensures |normal.small| == |returned.small| == MAX_PAGES
      ensures k == NULL <==> (if loc == OnNormal then normal else returned).small[m - 1] == []
      ensures k != NULL ==> k in spans && spans[k].location == loc && spans[k].length == m
      ensures k != NULL && NoneShorter(spans, n, m) ==> BestFit(spans, k, n)
    {
      hide Geometry, Shelved, Supply, BestFit, NoneShorter;
      SupplyNull(spans.Keys, pool, unused);
      FrontBest(spans, owner, OnNormal, normal, freeBytes, n, m);
      FrontBest(spans, owner, OnReturned, returned, unmappedBytes, n, m);
      var q := if loc == OnNormal then normal.small[m - 1] else returned.small[m - 1];
      if q == [] {
        return NULL;
      }
      k := q[0];
    }

    /** Serves n pages from an exact list of n or more pages, shortest first, else from
        the large spans. With room under the limit the span carved is a best fit, and only
        the absence of any free span of n pages makes it fail. */
    method SearchFreeAndLargeLists(n: int) returns (r: SpanPtr, ghost released: nat)
      requires Valid() && n >= 1
      modifies this`spans, this`pool, this`unused, this`taken, this`slack, this`pageMap, this`owner, this`releaseIndex
      modifies this`normal, this`returned, this`freeBytes, this`unmappedBytes, this`committedBytes, this`calls
      ensures calls >= old(calls)
      ensures Valid() && taken - old(taken) == slack - old(slack) >= 0
      ensures r == NULL ==> ReleasedBy(old(See()), See(), released, !aggressiveDecommit)
      ensures r != NULL ==> Serves(old(See()), See(), r, n, !aggressiveDecommit)
      ensures old(Room(n)) && r == NULL ==> unchanged(this) && !FitsFree(spans, n)
      ensures old(Room(n)) && r != NULL ==> BestFit(old(spans), r, n)
    {
      hide Valid, ReleasedBy, Serves, BestFit, NoneShorter, FitsFree, Refusal;
      released := 0;
      ghost var v0 := See();
      ReleasedNone(v0, !aggressiveDecommit);
      NoneShorterStart(spans, n);
      var s := n;
      while s <= MAX_PAGES
        invariant n <= s && Valid() && taken == old(taken) && slack == old(slack) && calls >= old(calls)
        invariant ReleasedBy(v0, See(), released, !aggressiveDecommit)
        invariant old(Room(n)) ==> unchanged(this) && NoneShorter(spans, n, s)
        invariant n <= MAX_PAGES ==> s <= MAX_PAGES + 1
      {
        var ll := Front(OnNormal, n, s);
        if ll != NULL {
          r := CarveAfter(v0, ll, n, released);
          return;
        }
        ghost var v1 := See();
        ghost var more;
        r, more := ServeReturned(n, s);
        if r != NULL {
          ServesAfterRelease(v0, v1, See(), released, r, n, !aggressiveDecommit);
          return;
        }
        ReleasedSteps(v0, v1, See(), released, more, !aggressiveDecommit);
        released := released + more;
        RuleOut(n, s);
        s := s + 1;
      }
      NoneShorterLarge(spans, n, s);
      ghost var v1, released1 := See(), released;
      r, released := AllocLarge(n);
      if r == NULL {
        ReleasedSteps(v0, v1, See(), released1, released, !aggressiveDecommit);
        released := released1 + released;
      } else {
        ServesAfterRelease(v0, v1, See(), released1, r, n, !aggressiveDecommit);
      }
    }

    /** Serves n pages from the returned list of m pages, if it is not empty and the limit
        allows it. */
    method ServeReturned(n: int, m: int) returns (r: SpanPtr, ghost released: nat)
      requires Valid() && 1 <= n <= m <= MAX_PAGES
      modifies this`spans, this`pool, this`unused, this`taken, this`slack, this`pageMap, this`owner, this`releaseIndex
      modifies this`normal, this`returned, this`freeBytes, this`unmappedBytes, this`committedBytes, this`calls
      ensures Valid() && calls >= old(calls) && taken - old(taken) == slack - old(slack) >= 0
      ensures r == NULL ==> ReleasedBy(old(See()), See(), released, !aggressiveDecommit) && slack == old(slack)
      ensures r != NULL ==> Serves(old(See()), See(), r, n, !aggressiveDecommit)
      ensures old(Room(n)) && r == NULL ==> unchanged(this) && |returned.small| == MAX_PAGES && returned.small[m - 1] == []
      ensures old(Room(n)) && r != NULL && NoneShorter(old(spans), n, m) ==> BestFit(old(spans), r, n)
    {
      hide Valid, ReleasedBy, Serves, BestFit, NoneShorter, FitsFree, Refusal;
      released := 0;
      ghost var v0 := See();
      ReleasedNone(v0, !aggressiveDecommit);
      var ll := Front(OnReturned, n, m);
      if ll != NULL {
        var ok;
        ok, released := EnsureLimit(n, true);
        if ok {
          // Merging may have emptied the list.
          ll := Front(OnReturned, n, m);
          if ll != NULL {
            r := CarveAfter(v0, ll, n, released);
            return;
          }
        }
      }
      return NULL, released;
    }

    /** Carve, seen from a view before some releasing. */
    method CarveAfter(ghost v0: View, span: SpanPtr, n: int, ghost released: nat) returns (r: SpanPtr)
      requires Valid() && span in spans && spans[span].location != InUse && 1 <= n <= spans[span].length
      requires spans[span].location == OnReturned ==> Room(n)
      requires ReleasedBy(v0, See(), released, !aggressiveDecommit)
      modifies this`spans, this`pool, this`unused, this`taken, this`slack, this`pageMap, this`owner
      modifies this`normal, this`returned, this`freeBytes, this`unmappedBytes, this`committedBytes
      ensures Valid() && r == span && r != NULL && Serves(v0, See(), r, n, !aggressiveDecommit)
      ensures taken - old(taken) == slack - old(slack) >= 0
    {
      hide ReleasedBy, Serves, Geometry, Shelved, Supply, FrontTaken;
      SupplyNull(spans.Keys, pool, unused);
      ghost var v1 := See();
      Carve(span, n);
      ServesAfterRelease(v0, v1, See(), released, span, n, !aggressiveDecommit);
      return span;
    }

    /** If both lists of m pages are empty, no free span has exactly m pages. */
    lemma RuleOut(n: int, m: int)
      requires Valid() && 1 <= n <= m <= MAX_PAGES
      ensures |normal.small| == |returned.small| == MAX_PAGES
      ensures normal.small[m - 1] == [] && returned.small[m - 1] == [] && NoneShorter(spans, n, m) ==> NoneShorter(spans, n, m + 1)
    {
      hide Geometry, Shelved, Supply, NoneShorter;
      ShelvedShape(spans, owner, {}, OnNormal, normal, freeBytes);
      ShelvedShape(spans, owner, {}, OnReturned, returned, unmappedBytes);
      if normal.small[m - 1] == [] && returned.small[m - 1] == [] && NoneShorter(spans, n, m) {
        NoneShorterStep(spans, owner, normal, freeBytes, returned, unmappedBytes, n, m);
      }
    }

    // ---- Growing ----

    /** The system maps pages not mapped before, at least as many as asked for, or refuses. */
    method SystemAlloc(ask: int) returns (ok: bool, p: int, actual: int)
      requires ask >= 1
      modifies this`taken, this`slack, this`calls
      ensures calls == old(calls) + 1 && ok == system.allocate(old(calls), ask, mapped).Offered?
      ensures ok ==> 1 <= p && ask <= actual && p + actual <= ADDRESS_PAGES && Unmapped(p, actual)
      ensures ok ==> taken == old(taken) + actual && slack == old(slack) + actual - ask
      ensures !ok ==> unchanged(`taken, `slack)
    {
      ok, p, actual := false, 0, 0;
      var offer := system.allocate(calls, ask, mapped);
      assert Lawful(offer, ask, mapped);
      calls := calls + 1;
      if offer.Offered? {
        ok, p, actual := true, offer.start, offer.length;
        taken := taken + actual;
        slack := slack + (actual - ask);
      }
    }

    predicate Unmapped(p: int, n: int)
      reads this`mapped
    {
      forall q | p <= q < p + n :: q !in mapped
    }

    /** One attempt to obtain memory within the limit. */
    method LimitedAlloc(ask: int) returns (got: bool, p: int, actual: int)
      requires Valid() && ask >= 1
      modifies this`spans, this`pool, this`pageMap, this`owner, this`releaseIndex, this`taken, this`slack
      modifies this`normal, this`returned, this`freeBytes, this`unmappedBytes, this`committedBytes, this`calls
      ensures calls >= old(calls)
      ensures Valid() && Reorganised(old(See()), See(), !aggressiveDecommit)
      ensures got ==> 1 <= p && ask <= actual && p + actual <= ADDRESS_PAGES && Unmapped(p, actual)
      ensures got ==> systemBytes + PAGE_SIZE * actual <= PAGE_SIZE * taken
      ensures !got && old(Room(ask)) ==> Denied(old(calls), calls, ask)
      ensures !got ==> taken == old(taken) && unmappedBytes >= old(unmappedBytes)
    {
      hide Geometry, Shelved, Supply, ReleasedBy, Reorganised;
      got, p, actual := false, 0, 0;
      ghost var v0 := See();
      var ok, released := EnsureLimit(ask, true);
      ReleasedBytes(v0, See(), released, !aggressiveDecommit);
      ReorganisedSteps(old(See()), See(), See(), released, NULL, ask, !aggressiveDecommit);
      if ok {
        got, p, actual := SystemAlloc(ask);
      }
    }

    /** The counter, descriptor and page map writes of GrowHeap. */
    method Admit(p: int, n: int) returns (span: SpanPtr)
      requires Supply(spans.Keys, pool, unused) && n >= 1
      modifies this`spans, this`pool, this`unused, this`taken, this`slack, this`pageMap
      modifies this`systemBytes, this`committedBytes, this`mapped
      ensures Supply(spans.Keys, pool, unused) && taken - old(taken) == slack - old(slack) >= 0
      ensures span !in old(spans) && span != NULL && spans == old(spans)[span := Rec(p, n, InUse, 0)]
      ensures pageMap == old(pageMap)[p := span][Rec(p, n, InUse, 0).End() - 1 := span]
      ensures systemBytes == old(systemBytes) + PAGE_SIZE * n && committedBytes == old(committedBytes) + PAGE_SIZE * n
      ensures mapped == old(mapped) + Rec(p, n, InUse, 0).Pages()
    {
      hide Supply;
      systemBytes := systemBytes + PAGE_SIZE * n;
      committedBytes := committedBytes + PAGE_SIZE * n;
      mapped := mapped + Rec(p, n, InUse, 0).Pages();
      span := NewSpan(p, n);
      RecordSpan(span);
    }

    /** Admits new pages and gives them an owner. */
    method AdmitOwned(p: int, n: int) returns (span: SpanPtr)
      requires Core({}) && mapped == owner.Keys && 1 <= p && 1 <= n && Unmapped(p, n) && systemBytes + PAGE_SIZE * n <= PAGE_SIZE * taken
      modifies this`spans, this`pool, this`unused, this`taken, this`slack, this`pageMap, this`owner
      modifies this`systemBytes, this`committedBytes, this`mapped
      ensures Core({}) && taken - old(taken) == slack - old(slack) >= 0
      ensures span !in old(spans) && spans == old(spans)[span := Rec(p, n, InUse, 0)]
      ensures systemBytes == old(systemBytes) + PAGE_SIZE * n && committedBytes == old(committedBytes) + PAGE_SIZE * n
      ensures mapped == old(mapped) + Rec(p, n, InUse, 0).Pages() == owner.Keys
    {
      hide Geometry, Shelved, Supply, Claimed, Unmapped, Rec.Pages, Rec.Covers;
      ghost var r := Rec(p, n, InUse, 0);
      ghost var s0, o0, m0, mapped0 := spans, owner, pageMap, mapped;
      UnmappedPages(p, n);
      span := Admit(p, n);
      GrownAll(s0, o0, m0, mapped0, normal, freeBytes, returned, unmappedBytes, span, r);
      assert spans == s0[span := r];
      owner := Claimed(owner, span, r);
      ClaimedKeys(o0, span, r, mapped0);
      assert Geometry(spans, owner, pageMap);
    }

    /** Adds new pages as one span in use. */
    method Claim(p: int, n: int) returns (span: SpanPtr)
      requires Valid() && 1 <= p && 1 <= n && p + n <= ADDRESS_PAGES && Unmapped(p, n) && systemBytes + PAGE_SIZE * n <= PAGE_SIZE * taken
      modifies this`spans, this`pool, this`unused, this`taken, this`slack, this`pageMap, this`owner
      modifies this`systemBytes, this`committedBytes, this`mapped
      ensures Valid() && span !in old(spans) && spans == old(spans)[span := Rec(p, n, InUse, 0)]
      ensures owner.Keys == old(owner.Keys) + Rec(p, n, InUse, 0).Pages() && mapped == old(mapped) + Rec(p, n, InUse, 0).Pages()
    {
      hide Core, Unmapped, Rec.Pages, Addressable;
      ClaimAddressable(mapped, Rec(p, n, InUse, 0));
      span := AdmitOwned(p, n);
    }

    static lemma ClaimAddressable(pages: set<int>, r: Rec)
      requires Addressable(pages) && 1 <= r.start && r.End() <= ADDRESS_PAGES
      ensures Addressable(pages + r.Pages())
    {
    }

    lemma UnmappedPages(p: int, n: int)
      requires Unmapped(p, n)
      ensures forall q | p <= q < Rec(p, n, InUse, 0).End() :: q !in mapped
    {
    }

    /** Obtains at least n more pages from the system and frees them. */
    method GrowHeap(n: int) returns (ok: bool)
      requires Valid() && n >= 1
      modifies this
      ensures Valid() && aggressiveDecommit == old(aggressiveDecommit)
      ensures Reorganised(old(See()), See(), !aggressiveDecommit)
      ensures ok ==> FitsFree(spans, n) && old(mapped) < mapped
      ensures !ok ==> mapped == old(mapped)
      ensures !ok && old(Room(n)) ==> n > MAX_VALID_PAGES || Denied(old(calls), calls, n)
      ensures calls >= old(calls)
    {
      hide Valid, Reorganised, FitsFree;
      ghost var v0 := See();
      ReorganisedNone(v0, !aggressiveDecommit);
      if n > MAX_VALID_PAGES {
        return false;
      }
      var ask := if n > MIN_SYSTEM_ALLOC then n else MIN_SYSTEM_ALLOC;
      var got, p, actual := LimitedAlloc(ask);
      if !got {
        if n < ask {
          ask := n;
          ghost var v1 := See();
          got, p, actual := LimitedAlloc(ask);
          ReorganisedSteps(v0, v1, See(), 0, NULL, n, !aggressiveDecommit);
        }
        if !got {
          return false;
        }
      }
      ghost var v2 := See();
      AddPages(p, actual, n);
      ReorganisedSteps(v0, v2, See(), 0, NULL, n, !aggressiveDecommit);
      return true;
    }

    /** Pretends new pages were allocated and frees them, so that they coalesce. */
    method AddPages(p: int, n: int, ghost m: int)
      requires Valid() && 1 <= p && 1 <= m <= n && p + n <= ADDRESS_PAGES && Unmapped(p, n) && systemBytes + PAGE_SIZE * n <= PAGE_SIZE * taken
      modifies this
      ensures Valid() && aggressiveDecommit == old(aggressiveDecommit)
      ensures Reorganised(old(See()), See(), !aggressiveDecommit) && FitsFree(spans, m)
      ensures old(mapped) < mapped && calls >= old(calls)
    {
      hide Valid, Used, NoSmaller, Coalesced;
      ghost var s0 := spans;
      assert Rec(p, n, InUse, 0).Covers(p) && p !in mapped;
      var span := Claim(p, n);
      assert p in mapped;
      ghost var s1 := spans;
      GrownClient(s0, span, Rec(p, n, InUse, 0));
      Delete(span);
      NoSmallerSteps(s0, s1, spans);
    }

    /** Allocates a run of n pages. With room under the limit a request that some free span
        can serve is served by a best fit. Without a limit any other is served once the heap
        has grown: it fails only if the system refuses the memory. */
    method New(n: int) returns (r: SpanPtr)
      requires Valid() && n >= 1
      modifies this
      ensures Valid() && aggressiveDecommit == old(aggressiveDecommit)
      ensures r == NULL ==> Reorganised(old(See()), See(), !aggressiveDecommit)
      ensures r != NULL ==> Allocated(old(See()), See(), r, n, !aggressiveDecommit)
      ensures old(Room(n) && FitsFree(spans, n)) ==> r != NULL && BestFit(old(spans), r, n) && mapped == old(mapped)
      ensures limit == 0 && r == NULL ==>
        mapped == old(mapped) && (n > MAX_VALID_PAGES || Denied(old(calls), calls, n))
    {
      hide Valid, ReleasedBy, Serves, Reorganised, Allocated, BestFit, FitsFree, Refusal;
      ghost var v0 := See();
      ghost var released;
      r, released := SearchFreeAndLargeLists(n);
      ReorganisedNone(v0, !aggressiveDecommit);
      ReorganisedSteps(v0, v0, See(), released, r, n, !aggressiveDecommit);
      ReorganisedSteps(v0, See(), See(), released, r, n, !aggressiveDecommit);
      if r != NULL {
        return;
      }
      if freeBytes != 0 && unmappedBytes != 0 && freeBytes + unmappedBytes >= systemBytes / 4
         && systemBytes / FORCED_COALESCE_INTERVAL != (systemBytes + PAGE_SIZE * n) / FORCED_COALESCE_INTERVAL {
        r := ReleaseAndSearch(v0, n);
        if r != NULL {
          return;
        }
      }
      ghost var v1, calls1 := See(), calls;
      var ok := GrowHeap(n);
      ReorganisedSteps(v0, v1, See(), 0, NULL, n, !aggressiveDecommit);
      if !ok {
        DeniedWithin(old(calls), calls1, calls, n);
        return NULL;
      }
      ghost var v2 := See();
      r, released := SearchFreeAndLargeLists(n);
      ReorganisedSteps(v2, See(), See(), released, r, n, !aggressiveDecommit);
      ReorganisedSteps(v0, v2, See(), released, r, n, !aggressiveDecommit);
    }

    lemma DeniedWithin(a: nat, b: nat, c: nat, n: int)
      requires a <= b <= c
      ensures Denied(b, c, n) ==> Denied(a, c, n)
    {
    }

    /** Unmaps all free memory, so that free spans of either location coalesce, and
        searches again. */
    method ReleaseAndSearch(ghost v0: View, n: int) returns (r: SpanPtr)
      requires Valid() && n >= 1 && Reorganised(v0, See(), !aggressiveDecommit)
      modifies this`spans, this`pool, this`unused, this`taken, this`slack, this`pageMap, this`owner, this`releaseIndex
      modifies this`normal, this`returned, this`freeBytes, this`unmappedBytes, this`committedBytes, this`calls
      ensures calls >= old(calls)
      ensures Valid()
      ensures r == NULL ==> Reorganised(v0, See(), !aggressiveDecommit)
      ensures r != NULL ==> Allocated(v0, See(), r, n, !aggressiveDecommit)
    {
      hide Valid, ReleasedBy, Serves, Reorganised, Allocated, BestFit, FitsFree;
      ghost var v1 := See();
      var released := ReleaseAtLeastNPages(0x7fff_ffff);
      ghost var v2 := See();
      ReorganisedSteps(v1, v2, v2, released, NULL, n, !aggressiveDecommit);
      ReorganisedSteps(v0, v1, v2, 0, NULL, n, !aggressiveDecommit);
      ghost var more;
      r, more := SearchFreeAndLargeLists(n);
      ReorganisedSteps(v2, See(), See(), more, r, n, !aggressiveDecommit);
      ReorganisedSteps(v0, v2, See(), more, r, n, !aggressiveDecommit);
    }

    method SetAggressiveDecommit(aggressive: bool)
      requires Valid()
      modifies this`aggressiveDecommit
      ensures Valid() && aggressiveDecommit == aggressive
    {
      aggressiveDecommit := aggressive;
    }

    // ---- Lookups by page ----

    /** Every live span lies in the address space. */
    lemma SpanAddressable(k: SpanPtr)
      requires Valid() && k in spans
      ensures k != NULL && 1 <= spans[k].start && 1 <= spans[k].length && spans[k].End() <= ADDRESS_PAGES
    {
      hide Shelved, Supply;
      CoreFacts({}, k);
      assert spans[k].Covers(spans[k].End() - 1);
    }

    /** The page map finds the span of a page that is its first, or any of its pages once
        it has a size class. */
    lemma DescriptorFound(k: SpanPtr, p: int)
      requires Valid() && k in spans && spans[k].Covers(p) && (p == spans[k].start || spans[k].sizeClass != 0)
      ensures GetDescriptor(p) == k && p in owner && owner[p] == k
    {
      hide Shelved, Supply;
    }

    /** Pages the heap never had have no descriptor. */
    lemma DescriptorMissing(p: int)
      requires Valid() && p !in owner
      ensures GetDescriptor(p) == NULL
    {
      hide Shelved, Supply;
    }

    /** What is neither free nor unmapped is exactly what the spans in use cover. */
    lemma InUseRemainder()
      requires Valid()
      ensures systemBytes == freeBytes + unmappedBytes + PAGE_SIZE * |PagesOf(owner, Members(spans, {}, InUse))|
      ensures committedBytes == systemBytes - unmappedBytes
    {
      hide Listed, Mapped, Supply, Members, PagesOf;
      PagesByLocation(spans, owner);
    }

    /** Under a limit, with no memory taken but what was asked for, the memory taken and
        not unmapped never exceeds the limit. */
    lemma LimitKept()
      requires Valid() && limit > 0 && slack == 0
      ensures taken - unmappedBytes / PAGE_SIZE <= limit
    {
      hide Geometry, Supply, Listed;
      ShelvedBytes(spans, owner, {}, OnReturned, returned, unmappedBytes);
    }
  }
}
