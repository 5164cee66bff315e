/** The page heap's bookkeeping as values: which descriptor covers which page, what the
    page map says, and which spans are on which free lists.

    `spans` holds the descriptors in use, `owner` says which of them covers each page
    obtained from the system, and `pageMap` is the page map. Only the boundary entries
    of `pageMap` are tied to `owner`: an entry inside a span may be stale and may name
    any descriptor, dead or alive. */
module PageSpace {

  const PAGE_SIZE: int := 8192
  const MAX_PAGES: int := 128

  datatype Location = InUse | OnNormal | OnReturned

  /** The address of a descriptor. Addresses are recycled by the span allocator, so an
      old pointer may come to name a new span. */
  type SpanPtr = nat
  const NULL: SpanPtr := 0

  /** The contents of a descriptor: a run of pages. */
  datatype Rec = Rec(start: int, length: int, location: Location, sizeClass: nat) {
    predicate Covers(p: int) { start <= p < start + length }
    function End(): int { start + length }
    function Pages(): set<int> { set p | start <= p < start + length && Covers(p) }
  }

  /** The descriptors in use, by address; and a descriptor for each of some pages. */
  type Arena = map<SpanPtr, Rec>
  type PageOwner = map<int, SpanPtr>

  /** The free spans of one location: `small[i]` lists the spans of i + 1 pages, front
      first, and `large` is the set of the longer ones. */
  datatype FreeLists = FreeLists(small: seq<seq<SpanPtr>>, large: set<SpanPtr>)

  // ---- The invariant ----

  /** The live spans exactly tile the pages obtained from the system. */
  ghost predicate Tiled(spans: Arena, owner: PageOwner) {
    && (forall k | k in spans :: k != NULL && 1 <= spans[k].start && 1 <= spans[k].length)
    && (forall k, p {:trigger spans[k].Covers(p)} | k in spans && spans[k].Covers(p) :: p in owner && owner[p] == k)
    && (forall p | p in owner :: owner[p] in spans && spans[owner[p]].Covers(p))
  }

  ghost predicate Names(pageMap: PageOwner, p: int, k: SpanPtr) { p in pageMap && pageMap[p] == k }

  /** The page map must be right at a span's first and last page, and at all of them
      once the span has a size class. */
  ghost predicate NeedsEntry(r: Rec, p: int) {
    p == r.start || p == r.End() - 1 || r.sizeClass != 0
  }

  /** Every entry that must be right names the span covering the page, and pages never
      obtained from the system have no entry. No entry is NULL. */
  ghost predicate Mapped(spans: Arena, owner: PageOwner, pageMap: PageOwner)
    requires Tiled(spans, owner)
  {
    && (forall p | p in owner && NeedsEntry(spans[owner[p]], p) :: Names(pageMap, p, owner[p]))
    && pageMap.Keys <= owner.Keys
    && (forall p | p in pageMap :: pageMap[p] != NULL)
  }

  ghost predicate FreeUnclassed(spans: Arena) {
    forall k | k in spans && spans[k].location != InUse :: spans[k].sizeClass == 0
  }

  /** Tiling, page map and size classes together. */
  ghost predicate Geometry(spans: Arena, owner: PageOwner, pageMap: PageOwner) {
    Tiled(spans, owner) && Mapped(spans, owner, pageMap) && FreeUnclassed(spans)
  }

  ghost predicate NoDup(q: seq<SpanPtr>) { forall i, j | 0 <= i < j < |q| :: q[i] != q[j] }

  ghost predicate NoDups(f: FreeLists) { forall i | 0 <= i < |f.small| :: NoDup(f.small[i]) }

  /** The spans of location loc, leaving out those in `off`. */
  ghost function Members(spans: Arena, off: set<SpanPtr>, loc: Location): set<SpanPtr> {
    set k | k in spans && k !in off && spans[k].location == loc
  }

  ghost predicate OnItsList(f: FreeLists, k: SpanPtr, length: int)
    requires |f.small| == MAX_PAGES && length >= 1
  {
    if length > MAX_PAGES then k in f.large else k in f.small[length - 1]
  }

  /** The lists hold exactly the given spans, each once, on the list for its length. */
  ghost predicate Listed(spans: Arena, members: set<SpanPtr>, f: FreeLists)
    requires members <= spans.Keys
  {
    && |f.small| == MAX_PAGES
    && NoDups(f)
    && (forall i, k | 0 <= i < MAX_PAGES && k in f.small[i] :: k in members && spans[k].length == i + 1)
    && (forall k | k in f.large :: k in members && spans[k].length > MAX_PAGES)
    && (forall k | k in members :: spans[k].length >= 1 && OnItsList(f, k, spans[k].length))
  }

  /** The pages covered by the given spans. */
  ghost function PagesOf(owner: PageOwner, members: set<SpanPtr>): set<int> {
    set p | p in owner && owner[p] in members
  }

  /** The free lists of location loc hold its spans, those in `off` aside, and `bytes`
      is the memory they cover. */
  ghost predicate Shelved(spans: Arena, owner: PageOwner, off: set<SpanPtr>,
                          loc: Location, f: FreeLists, bytes: int)
  {
    && Listed(spans, Members(spans, off, loc), f)
    && bytes == PAGE_SIZE * |PagesOf(owner, Members(spans, off, loc))|
  }

  /** The span allocator: descriptors given back are in `pool`, and no descriptor lies
      at or beyond `unused`. */
  ghost predicate Supply(live: set<SpanPtr>, pool: seq<SpanPtr>, unused: SpanPtr) {
    && NULL < unused
    && (forall s | s in live :: NULL < s < unused)
    && (forall s | s in pool :: NULL < s < unused && s !in live)
    && NoDup(pool)
  }

  // ---- Updates ----

  function Without(q: seq<SpanPtr>, k: SpanPtr): seq<SpanPtr>
  {
    if q == [] then [] else if q[0] == k then q[1..] else [q[0]] + Without(q[1..], k)
  }

  /** Takes k, a span of `length` pages, off its list. */
  ghost function Removed(f: FreeLists, k: SpanPtr, length: int): FreeLists
    requires 1 <= length && |f.small| == MAX_PAGES
  {
    if length > MAX_PAGES then f.(large := f.large - {k})
    else f.(small := f.small[length - 1 := Without(f.small[length - 1], k)])
  }

  /** Puts k, a span of `length` pages, at the front of its list. */
  ghost function Added(f: FreeLists, k: SpanPtr, length: int): FreeLists
    requires 1 <= length && |f.small| == MAX_PAGES
  {
    if length > MAX_PAGES then f.(large := f.large + {k})
    else f.(small := f.small[length - 1 := [k] + f.small[length - 1]])
  }

  /** The effect of taking k, with record r, off its list on the lists of location loc. */
  ghost function TakenOff(f: FreeLists, loc: Location, k: SpanPtr, r: Rec): FreeLists
    requires 1 <= r.length && |f.small| == MAX_PAGES
  {
    if r.location == loc then Removed(f, k, r.length) else f
  }

  ghost function PutOn(f: FreeLists, loc: Location, k: SpanPtr, r: Rec): FreeLists
    requires 1 <= r.length && |f.small| == MAX_PAGES
  {
    if r.location == loc then Added(f, k, r.length) else f
  }

  /** The bytes r contributes to the total of location loc. */
  ghost function BytesAt(r: Rec, loc: Location): int {
    if r.location == loc then PAGE_SIZE * r.length else 0
  }

  ghost predicate Adjacent(a: Rec, b: Rec) { a.End() == b.start || b.End() == a.start }

  /** a stretched over the adjacent b. */
  ghost function Union(a: Rec, b: Rec): Rec {
    a.(start := if b.start < a.start then b.start else a.start, length := a.length + b.length)
  }

  /** Drops o, letting k cover its pages. */
  ghost function Absorb(spans: Arena, k: SpanPtr, o: SpanPtr): Arena
    requires k in spans && o in spans
  {
    (spans - {o})[k := Union(spans[k], spans[o])]
  }

  ghost function Reowned(owner: PageOwner, o: SpanPtr, k: SpanPtr): PageOwner {
    map p | p in owner :: if owner[p] == o then k else owner[p]
  }

  /** The one entry rewritten when b is merged into a. */
  ghost function MergeEdge(a: Rec, b: Rec): int {
    if b.start < a.start then b.start else b.End() - 1
  }

  ghost function Head(r: Rec, n: int): Rec { r.(length := n) }

  ghost function Tail(r: Rec, n: int, loc: Location): Rec { Rec(r.start + n, r.length - n, loc, 0) }

  /** Cuts k down to its first n pages; descriptor t takes the rest at location loc. */
  ghost function Cut(spans: Arena, k: SpanPtr, n: int, t: SpanPtr, loc: Location): Arena
    requires k in spans
  {
    spans[t := Tail(spans[k], n, loc)][k := Head(spans[k], n)]
  }

  /** From a to b the first n pages of the free span k came into use; the rest, if any, is
      a free span where k was, and nothing else changed. */
  ghost predicate FrontTaken(a: Arena, b: Arena, k: SpanPtr, n: int)
    requires k in a
  {
    if n == a[k].length then b == Relabel(a, k, InUse)
    else exists t :: t !in a && b == Cut(Relabel(a, k, InUse), k, n, t, a[k].location)
  }

  lemma FrontTakenWhole(a: Arena, k: SpanPtr)
    requires k in a
    ensures FrontTaken(a, Relabel(a, k, InUse), k, a[k].length)
  {
  }

  lemma FrontTakenPart(a: Arena, k: SpanPtr, n: int, t: SpanPtr)
    requires k in a && t !in a && n != a[k].length
    ensures FrontTaken(a, Cut(Relabel(a, k, InUse), k, n, t, a[k].location), k, n)
  {
  }

  ghost function CutOwner(owner: PageOwner, k: SpanPtr, cut: int, t: SpanPtr): PageOwner {
    map p | p in owner :: if owner[p] == k && p >= cut then t else owner[p]
  }

  ghost predicate Unclaimed(owner: PageOwner, r: Rec) { forall p | p in owner :: !r.Covers(p) }

  /** Lets k cover the new pages of r. */
  ghost function Claimed(owner: PageOwner, k: SpanPtr, r: Rec): PageOwner {
    owner + map q | r.start <= q < r.End() && r.Covers(q) :: k
  }

  // ---- Counting pages ----

  lemma {:induction false} PagesSize(r: Rec)
    requires r.length >= 0
    ensures |r.Pages()| == r.length
    decreases r.length
  {
    if r.length == 0 {
      assert r.Pages() == {};
    } else {
      var q := r.(length := r.length - 1);
      PagesSize(q);
      assert r.Covers(r.End() - 1);
      forall p ensures p in r.Pages() <==> p in q.Pages() || p == r.End() - 1 {
        assert r.Covers(p) <==> q.Covers(p) || p == r.End() - 1;
      }
      assert r.Pages() == q.Pages() + {r.End() - 1};
    }
  }

  /** A span's pages are the pages it owns. */
  lemma OwnPages(spans: Arena, owner: PageOwner, k: SpanPtr)
    requires Tiled(spans, owner) && k in spans
    ensures spans[k].Pages() == PagesOf(owner, {k})
  {
    var r := spans[k];
    forall p ensures p in r.Pages() <==> p in owner && owner[p] == k { assert r.Covers(p) <==> p in r.Pages(); }
  }

  /** The members' pages gain exactly k's pages when k joins them. */
  lemma JoinPages(spans: Arena, owner: PageOwner, members: set<SpanPtr>, k: SpanPtr)
    requires Tiled(spans, owner) && k in spans && k !in members
    ensures |PagesOf(owner, members + {k})| == |PagesOf(owner, members)| + spans[k].length
  {
    PagesSize(spans[k]);
    OwnPages(spans, owner, k);
    assert PagesOf(owner, members + {k}) == PagesOf(owner, members) + spans[k].Pages();
  }

  // ---- Lists ----

  ghost predicate Drops(q': seq<SpanPtr>, q: seq<SpanPtr>, k: SpanPtr) {
    && (forall x | x in q' :: x in q && x != k)
    && (forall x | x in q && x != k :: x in q')
  }

  lemma {:induction false} WithoutMembers(q: seq<SpanPtr>, k: SpanPtr)
    requires NoDup(q)
    ensures NoDup(Without(q, k)) && Drops(Without(q, k), q, k)
  {
    if q != [] {
      assert q == [q[0]] + q[1..];
      assert NoDup(q[1..]) && q[0] !in q[1..];
      WithoutMembers(q[1..], k);
    }
  }

  lemma {:induction false} WithoutAt(q: seq<SpanPtr>, i: nat)
    requires i < |q| && NoDup(q)
    ensures Without(q, q[i]) == q[..i] + q[i + 1..]
  {
    if i > 0 {
      assert NoDup(q[1..]);
      assert q[1..][i - 1] == q[i];
      WithoutAt(q[1..], i - 1);
      assert q[..i] + q[i + 1..] == [q[0]] + (q[1..][..i - 1] + q[1..][i..]);
    }
  }

  lemma RemovedListed(spans: Arena, members: set<SpanPtr>, f: FreeLists, k: SpanPtr)
    requires members <= spans.Keys && Listed(spans, members, f) && k in members
    ensures Listed(spans, members - {k}, Removed(f, k, spans[k].length))
  {
    var n := spans[k].length;
    if n <= MAX_PAGES {
      WithoutMembers(f.small[n - 1], k);
    }
  }

  lemma AddedListed(spans: Arena, members: set<SpanPtr>, f: FreeLists, k: SpanPtr)
    requires members <= spans.Keys && Listed(spans, members, f) && k in spans && k !in members && spans[k].length >= 1
    ensures Listed(spans, members + {k}, Added(f, k, spans[k].length))
  {
    var n := spans[k].length;
    if n <= MAX_PAGES {
      assert k !in f.small[n - 1];
      assert NoDup([k] + f.small[n - 1]);
    }
  }

  /** Listing depends on the members' lengths alone. */
  lemma ListedFrame(spans: Arena, spans': Arena, members: set<SpanPtr>, f: FreeLists)
    requires members <= spans.Keys && members <= spans'.Keys && Listed(spans, members, f)
    requires forall k | k in members :: spans'[k].length == spans[k].length
    ensures Listed(spans', members, f)
  {
  }

  /** What the free lists promise about one listed span. */
  lemma ListFacts(spans: Arena, owner: PageOwner, pageMap: PageOwner, off: set<SpanPtr>, loc: Location, f: FreeLists, bytes: int, k: SpanPtr)
    requires Geometry(spans, owner, pageMap) && k in spans && k !in off
    requires Shelved(spans, owner, off, loc, f, bytes)
    ensures |f.small| == MAX_PAGES && NoDups(f) && spans[k].length >= 1
    ensures spans[k].location == loc ==> OnItsList(f, k, spans[k].length) && BytesAt(spans[k], loc) <= bytes
  {
    if spans[k].location == loc {
      var m := Members(spans, off, loc);
      JoinPages(spans, owner, m - {k}, k);
      assert m - {k} + {k} == m;
    }
  }

  /** Taking a free span off its list leaves the lists right for the other spans. */
  lemma UnlinkShelved(spans: Arena, owner: PageOwner, pageMap: PageOwner, off: set<SpanPtr>, loc: Location, f: FreeLists, bytes: int, k: SpanPtr)
    requires Geometry(spans, owner, pageMap) && k in spans && k !in off
    requires Shelved(spans, owner, off, loc, f, bytes)
    ensures |f.small| == MAX_PAGES && spans[k].length >= 1
    ensures Shelved(spans, owner, off + {k}, loc, TakenOff(f, loc, k, spans[k]), bytes - BytesAt(spans[k], loc))
  {
    hide Mapped, FreeUnclassed;
    var m := Members(spans, off, loc);
    if spans[k].location == loc {
      assert Members(spans, off + {k}, loc) == m - {k};
      RemovedListed(spans, m, f, k);
      JoinPages(spans, owner, m - {k}, k);
      assert m - {k} + {k} == m;
    } else {
      assert Members(spans, off + {k}, loc) == m;
    }
  }

  /** Listing a held span again makes the lists right with it counted. A span in use
      is simply no longer held. */
  lemma LinkShelved(spans: Arena, owner: PageOwner, pageMap: PageOwner, off: set<SpanPtr>, loc: Location, f: FreeLists, bytes: int, k: SpanPtr)
    requires Geometry(spans, owner, pageMap) && k in spans && k in off && Shelved(spans, owner, off, loc, f, bytes)
    ensures |f.small| == MAX_PAGES && spans[k].length >= 1
    ensures Shelved(spans, owner, off - {k}, loc, PutOn(f, loc, k, spans[k]), bytes + BytesAt(spans[k], loc))
  {
    hide Mapped, FreeUnclassed;
    var m := Members(spans, off, loc);
    if spans[k].location == loc {
      assert Members(spans, off - {k}, loc) == m + {k};
      AddedListed(spans, m, f, k);
      JoinPages(spans, owner, m, k);
    } else {
      assert Members(spans, off - {k}, loc) == m;
    }
  }

  lemma SpanFacts(spans: Arena, owner: PageOwner, pageMap: PageOwner, k: SpanPtr)
    requires Geometry(spans, owner, pageMap) && k in spans
    ensures 1 <= spans[k].start && 1 <= spans[k].length
    ensures spans[k].location != InUse ==> spans[k].sizeClass == 0
    ensures spans[k].start in owner && owner[spans[k].start] == k
  {
    assert spans[k].Covers(spans[k].start);
  }

  // ---- The span allocator ----

  lemma TakeSupply(live: set<SpanPtr>, pool: seq<SpanPtr>, unused: SpanPtr)
    requires Supply(live, pool, unused)
    ensures unused !in live && unused != NULL && Supply(live + {unused}, pool, unused + 1)
    ensures pool != [] ==> pool[0] !in live && pool[0] != NULL && Supply(live + {pool[0]}, pool[1..], unused)
  {
    if pool != [] {
      assert pool[0] in pool;
      assert forall s | s in pool[1..] :: s in pool && s != pool[0];
    }
  }

  lemma SupplyNull(live: set<SpanPtr>, pool: seq<SpanPtr>, unused: SpanPtr)
    requires Supply(live, pool, unused)
    ensures NULL !in live
  {
  }

  lemma GiveSupply(live: set<SpanPtr>, pool: seq<SpanPtr>, unused: SpanPtr, s: SpanPtr)
    requires Supply(live, pool, unused) && s in live
    ensures Supply(live - {s}, [s] + pool, unused) && s != NULL
  {
  }

  // ---- Relabelling ----

  ghost function Relabel(spans: Arena, k: SpanPtr, loc: Location): Arena
    requires k in spans
  {
    spans[k := spans[k].(location := loc, sizeClass := 0)]
  }

  /** The tiling depends on the spans' extents alone. */
  lemma TiledFrame(spans: Arena, spans': Arena, owner: PageOwner)
    requires Tiled(spans, owner) && spans'.Keys == spans.Keys
    requires forall k | k in spans :: spans'[k].start == spans[k].start && spans'[k].length == spans[k].length
    ensures Tiled(spans', owner)
  {
    forall k, p | k in spans' && spans'[k].Covers(p) ensures spans[k].Covers(p) {}
  }

  lemma RelabelGeometry(spans: Arena, owner: PageOwner, pageMap: PageOwner, k: SpanPtr, loc: Location)
    requires Geometry(spans, owner, pageMap) && k in spans
    ensures Geometry(Relabel(spans, k, loc), owner, pageMap)
  {
    TiledFrame(spans, Relabel(spans, k, loc), owner);
  }

  lemma RelabelShelved(spans: Arena, owner: PageOwner, off: set<SpanPtr>, l: Location, f: FreeLists, bytes: int, k: SpanPtr, loc: Location)
    requires Shelved(spans, owner, off, l, f, bytes) && k in spans && k in off
    ensures Shelved(Relabel(spans, k, loc), owner, off, l, f, bytes)
  {
    assert Members(Relabel(spans, k, loc), off, l) == Members(spans, off, l);
    ListedFrame(spans, Relabel(spans, k, loc), Members(spans, off, l), f);
  }

  // ---- Merging ----

  lemma AbsorbTiled(spans: Arena, owner: PageOwner, k: SpanPtr, o: SpanPtr)
    requires Tiled(spans, owner) && k in spans && o in spans && k != o && Adjacent(spans[k], spans[o])
    ensures Tiled(Absorb(spans, k, o), Reowned(owner, o, k))
  {
    var r := Union(spans[k], spans[o]);
    forall p ensures r.Covers(p) <==> spans[k].Covers(p) || spans[o].Covers(p) {}
  }

  lemma AbsorbGeometry(spans: Arena, owner: PageOwner, pageMap: PageOwner, k: SpanPtr, o: SpanPtr)
    requires Geometry(spans, owner, pageMap)
    requires k in spans && o in spans && k != o && spans[k].sizeClass == 0 && Adjacent(spans[k], spans[o])
    ensures Geometry(Absorb(spans, k, o), Reowned(owner, o, k), pageMap[MergeEdge(spans[k], spans[o]) := k])
    ensures spans[k].length >= 1 && spans[o].length >= 1 && Reowned(owner, o, k).Keys == owner.Keys
  {
    AbsorbTiled(spans, owner, k, o);
    assert spans[o].Covers(MergeEdge(spans[k], spans[o]));
  }

  lemma AbsorbShelved(spans: Arena, owner: PageOwner, off: set<SpanPtr>, l: Location, f: FreeLists, bytes: int, k: SpanPtr, o: SpanPtr)
    requires Shelved(spans, owner, off, l, f, bytes) && k in spans && o in spans && k in off && o in off && k != o
    ensures Shelved(Absorb(spans, k, o), Reowned(owner, o, k), off - {o}, l, f, bytes)
  {
    var m := Members(spans, off, l);
    assert Members(Absorb(spans, k, o), off - {o}, l) == m;
    assert PagesOf(Reowned(owner, o, k), m) == PagesOf(owner, m);
    ListedFrame(spans, Absorb(spans, k, o), m, f);
  }

  // ---- Splitting ----

  lemma CutTiled(spans: Arena, owner: PageOwner, k: SpanPtr, n: int, t: SpanPtr, loc: Location)
    requires Tiled(spans, owner) && k in spans && t !in spans && t != NULL && 0 < n < spans[k].length
    ensures Tiled(Cut(spans, k, n, t, loc), CutOwner(owner, k, spans[k].start + n, t))
  {
    var r := spans[k];
    forall p ensures r.Covers(p) <==> Head(r, n).Covers(p) || Tail(r, n, loc).Covers(p) {}
  }

  lemma CutGeometry(spans: Arena, owner: PageOwner, pageMap: PageOwner, k: SpanPtr, n: int, t: SpanPtr, loc: Location)
    requires Geometry(spans, owner, pageMap)
    requires k in spans && t !in spans && t != NULL && 0 < n < spans[k].length && spans[k].sizeClass == 0
    ensures var r := spans[k];
            Geometry(Cut(spans, k, n, t, loc), CutOwner(owner, k, r.start + n, t),
                     pageMap[r.start + n := t][r.End() - 1 := t][r.start + n - 1 := k])
  {
    hide Tiled, Mapped, CutOwner, EntriesRight;
    var r := spans[k];
    CutTiled(spans, owner, k, n, t, loc);
    CutEntries(spans, owner, pageMap, k, n, t, loc);
    EntriesOk(Cut(spans, k, n, t, loc), CutOwner(owner, k, r.start + n, t),
              pageMap[r.start + n := t][r.End() - 1 := t][r.start + n - 1 := k]);
  }

  lemma CutEntries(spans: Arena, owner: PageOwner, pageMap: PageOwner, k: SpanPtr, n: int, t: SpanPtr, loc: Location)
    requires Geometry(spans, owner, pageMap)
    requires k in spans && t !in spans && t != NULL && 0 < n < spans[k].length && spans[k].sizeClass == 0
    ensures var r := spans[k];
            EntriesRight(Cut(spans, k, n, t, loc), CutOwner(owner, k, r.start + n, t),
                         pageMap[r.start + n := t][r.End() - 1 := t][r.start + n - 1 := k])
  {
    hide Geometry, EntryOk, Cut, CutOwner;
    var r := spans[k];
    var spans', owner' := Cut(spans, k, n, t, loc), CutOwner(owner, k, r.start + n, t);
    var pageMap' := pageMap[r.start + n := t][r.End() - 1 := t][r.start + n - 1 := k];
    CutKeys(spans, owner, pageMap, k, n, t);
    OwnersKept(owner, k, r.start + n, t);
    forall p | p in owner' ensures EntryOk(spans', owner', pageMap', p) {
      CutEntryOk(spans, owner, pageMap, k, n, t, loc, p);
    }
  }

  lemma OwnersKept(owner: PageOwner, k: SpanPtr, cut: int, t: SpanPtr)
    ensures CutOwner(owner, k, cut, t).Keys == owner.Keys
  {
  }

  ghost predicate EntryOk(spans: Arena, owner: PageOwner, pageMap: PageOwner, p: int) {
    p in owner && owner[p] in spans && (NeedsEntry(spans[owner[p]], p) ==> Names(pageMap, p, owner[p]))
  }

  ghost predicate EntriesRight(spans: Arena, owner: PageOwner, pageMap: PageOwner) {
    && (forall p | p in owner :: EntryOk(spans, owner, pageMap, p))
    && pageMap.Keys <= owner.Keys
    && (forall p | p in pageMap :: pageMap[p] != NULL)
  }

  lemma EntriesOk(spans: Arena, owner: PageOwner, pageMap: PageOwner)
    requires Tiled(spans, owner) && EntriesRight(spans, owner, pageMap)
    ensures Mapped(spans, owner, pageMap)
  {
    hide NeedsEntry, Names;
  }

  lemma CutEntryOk(spans: Arena, owner: PageOwner, pageMap: PageOwner, k: SpanPtr, n: int, t: SpanPtr, loc: Location, p: int)
    requires Geometry(spans, owner, pageMap) && p in owner
    requires k in spans && t !in spans && 0 < n < spans[k].length && spans[k].sizeClass == 0
    ensures var r := spans[k];
            EntryOk(Cut(spans, k, n, t, loc), CutOwner(owner, k, r.start + n, t),
                    pageMap[r.start + n := t][r.End() - 1 := t][r.start + n - 1 := k], p)
  {
    hide NeedsEntry, Names, Tiled;
    TiledAt(spans, owner, p);
    CutEntry(spans[owner[p]], owner[p], spans[k], k, n, t, loc, p, pageMap);
  }

  lemma TiledAt(spans: Arena, owner: PageOwner, p: int)
    requires Tiled(spans, owner) && p in owner
    ensures owner[p] in spans && spans[owner[p]].Covers(p)
    ensures forall k | k in spans && k != owner[p] :: !spans[k].Covers(p)
  {
  }

  lemma CutKeys(spans: Arena, owner: PageOwner, pageMap: PageOwner, k: SpanPtr, n: int, t: SpanPtr)
    requires Geometry(spans, owner, pageMap)
    requires k in spans && t != NULL && 0 < n < spans[k].length
    ensures var r := spans[k];
            var pageMap' := pageMap[r.start + n := t][r.End() - 1 := t][r.start + n - 1 := k];
            pageMap'.Keys <= owner.Keys && forall p | p in pageMap' :: pageMap'[p] != NULL
  {
    hide NeedsEntry, Names, FreeUnclassed;
    var r := spans[k];
    assert r.Covers(r.start + n) && r.Covers(r.start + n - 1) && r.Covers(r.End() - 1);
  }

  /** The entry of page p, of span o with record q, after span k with record r was cut. */
  lemma CutEntry(q: Rec, o: SpanPtr, r: Rec, k: SpanPtr, n: int, t: SpanPtr, loc: Location, p: int, pageMap: PageOwner)
    requires q.Covers(p) && 0 < n < r.length && r.sizeClass == 0 && o != t && (o == k ==> q == r)
    requires o != k ==> !r.Covers(p)
    requires NeedsEntry(q, p) ==> Names(pageMap, p, o)
    ensures var pageMap' := pageMap[r.start + n := t][r.End() - 1 := t][r.start + n - 1 := k];
            var o' := if o == k && p >= r.start + n then t else o;
            var q' := if o' == t then Tail(r, n, loc) else if o' == k then Head(r, n) else q;
            NeedsEntry(q', p) ==> Names(pageMap', p, o')
  {
  }

  lemma CutShelved(spans: Arena, owner: PageOwner, off: set<SpanPtr>, l: Location, f: FreeLists, bytes: int,
                   k: SpanPtr, n: int, t: SpanPtr, loc: Location)
    requires Shelved(spans, owner, off, l, f, bytes) && k in spans && t !in spans && k in off
    ensures Shelved(Cut(spans, k, n, t, loc), CutOwner(owner, k, spans[k].start + n, t), off + {t}, l, f, bytes)
  {
    var m := Members(spans, off, l);
    assert Members(Cut(spans, k, n, t, loc), off + {t}, l) == m;
    assert PagesOf(CutOwner(owner, k, spans[k].start + n, t), m) == PagesOf(owner, m);
    ListedFrame(spans, Cut(spans, k, n, t, loc), m, f);
  }

  /** Cutting a held span and listing its tail, as one step. */
  lemma CutHeld(spans: Arena, owner: PageOwner, pageMap: PageOwner, off: set<SpanPtr>, nf: FreeLists, nb: int, rf: FreeLists, rb: int,
                k: SpanPtr, n: int, t: SpanPtr, loc: Location)
    requires Geometry(spans, owner, pageMap) && off == {k} && k in spans && t !in spans && t != NULL
    requires 0 < n < spans[k].length && spans[k].sizeClass == 0
    requires Shelved(spans, owner, off, OnNormal, nf, nb) && Shelved(spans, owner, off, OnReturned, rf, rb)
    ensures |nf.small| == |rf.small| == MAX_PAGES
    ensures
      var r, tail := spans[k], Tail(spans[k], n, loc);
      var spans', owner' := Cut(spans, k, n, t, loc), CutOwner(owner, k, r.start + n, t);
      && Geometry(spans', owner', pageMap[r.start + n := t][r.End() - 1 := t][r.start + n - 1 := k])
      && owner'.Keys == owner.Keys
      && Shelved(spans', owner', off, OnNormal, PutOn(nf, OnNormal, t, tail), nb + BytesAt(tail, OnNormal))
      && Shelved(spans', owner', off, OnReturned, PutOn(rf, OnReturned, t, tail), rb + BytesAt(tail, OnReturned))
  {
    hide Geometry, Shelved;
    var r := spans[k];
    var spans', owner' := Cut(spans, k, n, t, loc), CutOwner(owner, k, r.start + n, t);
    var pageMap' := pageMap[r.start + n := t][r.End() - 1 := t][r.start + n - 1 := k];
    CutGeometry(spans, owner, pageMap, k, n, t, loc);
    CutShelved(spans, owner, off, OnNormal, nf, nb, k, n, t, loc);
    CutShelved(spans, owner, off, OnReturned, rf, rb, k, n, t, loc);
    LinkShelved(spans', owner', pageMap', off + {t}, OnNormal, nf, nb, t);
    LinkShelved(spans', owner', pageMap', off + {t}, OnReturned, rf, rb, t);
    assert off + {t} - {t} == off;
  }

  /** Cutting a used span leaves the lists alone. */
  lemma SplitShelved(spans: Arena, owner: PageOwner, pageMap: PageOwner, loc: Location, f: FreeLists, bytes: int, k: SpanPtr, n: int, t: SpanPtr)
    requires Geometry(spans, owner, pageMap) && k in spans && t !in spans && t != NULL && 0 < n < spans[k].length
    requires spans[k].location == InUse && spans[k].sizeClass == 0 && loc != InUse && Shelved(spans, owner, {}, loc, f, bytes)
    ensures Shelved(Cut(spans, k, n, t, InUse), CutOwner(owner, k, spans[k].start + n, t), {}, loc, f, bytes)
    ensures CutOwner(owner, k, spans[k].start + n, t).Keys == owner.Keys
  {
    hide Geometry, Shelved;
    var r := spans[k];
    var spans', owner' := Cut(spans, k, n, t, InUse), CutOwner(owner, k, r.start + n, t);
    HoldUsed(spans, owner, pageMap, {}, loc, f, bytes, k);
    assert {} + {k} == {k};
    CutGeometry(spans, owner, pageMap, k, n, t, InUse);
    var pageMap' := pageMap[r.start + n := t][r.End() - 1 := t][r.start + n - 1 := k];
    CutShelved(spans, owner, {k}, loc, f, bytes, k, n, t, InUse);
    HoldUsed(spans', owner', pageMap', {k} + {t}, loc, f, bytes, k);
    assert {k} + {t} - {k} == {t};
    HoldUsed(spans', owner', pageMap', {t}, loc, f, bytes, t);
    assert {t} - {t} == {};
  }

  // ---- Growing ----

  lemma GrownTiled(spans: Arena, owner: PageOwner, k: SpanPtr, r: Rec)
    requires Tiled(spans, owner) && k !in spans && k != NULL && 1 <= r.start && 1 <= r.length && Unclaimed(owner, r)
    ensures Tiled(spans[k := r], Claimed(owner, k, r))
  {
    forall q ensures q in Claimed(owner, k, r) <==> q in owner || r.Covers(q) {}
  }

  lemma ClaimedKeys(owner: PageOwner, k: SpanPtr, r: Rec, mapped: set<int>)
    requires mapped == owner.Keys
    ensures Claimed(owner, k, r).Keys == mapped + r.Pages()
  {
  }

  lemma GrownSize(owner: PageOwner, k: SpanPtr, r: Rec)
    requires 1 <= r.length && Unclaimed(owner, r)
    ensures |Claimed(owner, k, r).Keys| == |owner.Keys| + r.length
  {
    PagesSize(r);
    var fresh' := (map q | r.start <= q < r.End() && r.Covers(q) :: k).Keys;
    forall q ensures q in r.Pages() <==> q in fresh' {}
    assert fresh' == r.Pages();
    assert Claimed(owner, k, r).Keys == owner.Keys + fresh';
    assert owner.Keys !! fresh';
  }

  lemma GrownGeometry(spans: Arena, owner: PageOwner, pageMap: PageOwner, k: SpanPtr, r: Rec)
    requires Geometry(spans, owner, pageMap) && k !in spans && k != NULL && 1 <= r.start && 1 <= r.length
    requires r.location == InUse && r.sizeClass == 0 && Unclaimed(owner, r)
    ensures Geometry(spans[k := r], Claimed(owner, k, r), pageMap[r.start := k][r.End() - 1 := k])
  {
    GrownTiled(spans, owner, k, r);
    assert r.Covers(r.start) && r.Covers(r.End() - 1);
  }

  lemma GrownShelved(spans: Arena, owner: PageOwner, pageMap: PageOwner, off: set<SpanPtr>, l: Location, f: FreeLists, bytes: int,
                     k: SpanPtr, r: Rec)
    requires Shelved(spans, owner, off, l, f, bytes) && Geometry(spans, owner, pageMap)
    requires k !in spans && r.location == InUse != l && Unclaimed(owner, r)
    ensures Shelved(spans[k := r], Claimed(owner, k, r), off, l, f, bytes)
  {
    var m := Members(spans, off, l);
    assert Members(spans[k := r], off, l) == m;
    assert PagesOf(Claimed(owner, k, r), m) == PagesOf(owner, m);
    ListedFrame(spans, spans[k := r], m, f);
  }

  /** Everything that adding new pages does, as one step. */
  lemma GrownAll(spans: Arena, owner: PageOwner, pageMap: PageOwner, mapped: set<int>, nf: FreeLists, nb: int, rf: FreeLists, rb: int,
                 k: SpanPtr, r: Rec)
    requires Geometry(spans, owner, pageMap) && mapped == owner.Keys
    requires Shelved(spans, owner, {}, OnNormal, nf, nb) && Shelved(spans, owner, {}, OnReturned, rf, rb)
    requires k !in spans && k != NULL && 1 <= r.start && 1 <= r.length && r.location == InUse && r.sizeClass == 0
    requires forall q | r.start <= q < r.End() :: q !in mapped
    ensures
      var spans', owner' := spans[k := r], Claimed(owner, k, r);
      && Geometry(spans', owner', pageMap[r.start := k][r.End() - 1 := k])
      && Shelved(spans', owner', {}, OnNormal, nf, nb) && Shelved(spans', owner', {}, OnReturned, rf, rb)
      && |owner'.Keys| == |owner.Keys| + r.length
  {
    hide Geometry, Shelved, Claimed;
    assert Unclaimed(owner, r);
    GrownGeometry(spans, owner, pageMap, k, r);
    GrownShelved(spans, owner, pageMap, {}, OnNormal, nf, nb, k, r);
    GrownShelved(spans, owner, pageMap, {}, OnReturned, rf, rb, k, r);
    GrownSize(owner, k, r);
  }

  // ---- Size classes ----

  /** The page map with the pages from a up to b all set to k. */
  ghost function Filled(pageMap: PageOwner, a: int, b: int, k: SpanPtr): PageOwner {
    pageMap + map p | a <= p < b && Within(a, b, p) :: k
  }

  ghost predicate Within(a: int, b: int, p: int) { a <= p < b }

  lemma ClassifyGeometry(spans: Arena, owner: PageOwner, pageMap: PageOwner, k: SpanPtr, c: nat)
    requires Geometry(spans, owner, pageMap) && k in spans && spans[k].location == InUse
    ensures Geometry(spans[k := spans[k].(sizeClass := c)], owner, Filled(pageMap, spans[k].start, spans[k].End(), k))
  {
    TiledFrame(spans, spans[k := spans[k].(sizeClass := c)], owner);
    var r := spans[k];
    forall p ensures r.Covers(p) <==> p in owner && owner[p] == k {}
    forall p ensures r.Covers(p) <==> Within(r.start, r.End(), p) {}
  }

  /** The boundary entries are right already, so filling the interior fills the span. */
  lemma FilledInterior(spans: Arena, owner: PageOwner, pageMap: PageOwner, k: SpanPtr)
    requires Geometry(spans, owner, pageMap) && k in spans
    ensures spans[k].length >= 2 ==>
      Filled(pageMap, spans[k].start + 1, spans[k].End() - 1, k) == Filled(pageMap, spans[k].start, spans[k].End(), k)
    ensures spans[k].length == 1 ==> pageMap == Filled(pageMap, spans[k].start, spans[k].End(), k)
  {
    var r := spans[k];
    assert r.Covers(r.start) && r.Covers(r.End() - 1);
    forall p ensures Within(r.start, r.End(), p) <==> Within(r.start + 1, r.End() - 1, p) || p == r.start || p == r.End() - 1 {}
  }

  lemma FilledStep(pageMap: PageOwner, a: int, b: int, k: SpanPtr)
    ensures a <= b ==> Filled(pageMap, a, b, k)[b := k] == Filled(pageMap, a, b + 1, k)
    ensures Filled(pageMap, a, a, k) == pageMap
  {
    forall p ensures Within(a, b + 1, p) <==> Within(a, b, p) || (p == b && a <= b) {}
  }

  lemma ClassifyClient(spans: Arena, owner: PageOwner, pageMap: PageOwner, k: SpanPtr, c: nat)
    requires Geometry(spans, owner, pageMap) && k in spans && spans[k].location == InUse
    ensures var u := spans[k := spans[k].(sizeClass := c)];
            Used(u) == Used(spans)[k := u[k]] && (Coalesced(spans, {}) ==> Coalesced(u, {}))
  {
    var u := spans[k := spans[k].(sizeClass := c)];
    assert Used(u) == Used(spans)[k := u[k]];
    if Coalesced(spans, {}) {
      forall a, b | a in u && b in u ensures !Clash(u[a], u[b]) {
        assert !Clash(spans[a], spans[b]);
      }
    }
  }

  lemma ClassifyShelved(spans: Arena, owner: PageOwner, off: set<SpanPtr>, l: Location, f: FreeLists, bytes: int, k: SpanPtr, c: nat)
    requires Shelved(spans, owner, off, l, f, bytes) && k in spans
    ensures Shelved(spans[k := spans[k].(sizeClass := c)], owner, off, l, f, bytes)
  {
    assert Members(spans[k := spans[k].(sizeClass := c)], off, l) == Members(spans, off, l);
    ListedFrame(spans, spans[k := spans[k].(sizeClass := c)], Members(spans, off, l), f);
  }

  // ---- Coalescing ----

  /** b directly follows a and both are free at the same location. */
  ghost predicate Clash(a: Rec, b: Rec) {
    a.End() == b.start && a.location == b.location && a.location != InUse
  }

  /** No two adjacent free spans, those in `off` aside, have the same location. */
  ghost predicate Coalesced(spans: Arena, off: set<SpanPtr>) {
    forall a, b {:trigger Clash(spans[a], spans[b])} | a in spans && b in spans && a !in off && b !in off ::
      !Clash(spans[a], spans[b])
  }

  /** Nothing listed would merge with k from the left (right). */
  ghost predicate LeftClear(spans: Arena, off: set<SpanPtr>, k: SpanPtr)
    requires k in spans
  {
    forall a {:trigger Clash(spans[a], spans[k])} | a in spans && a !in off :: !Clash(spans[a], spans[k])
  }

  ghost predicate RightClear(spans: Arena, off: set<SpanPtr>, k: SpanPtr)
    requires k in spans
  {
    forall b {:trigger Clash(spans[k], spans[b])} | b in spans && b !in off :: !Clash(spans[k], spans[b])
  }

  /** Relabelling a span leaves the others coalesced. */
  lemma RelabelCoalesced(spans: Arena, k: SpanPtr, loc: Location)
    requires k in spans
    ensures Coalesced(spans, {}) ==> Coalesced(Relabel(spans, k, loc), {k})
  {
    if Coalesced(spans, {}) {
      var u := Relabel(spans, k, loc);
      forall a, b | a in u && b in u && a != k && b != k ensures !Clash(u[a], u[b]) {
        assert !Clash(spans[a], spans[b]);
      }
    }
  }

  /** What the page before k tells about a left neighbour. */
  lemma LeftNeighbour(spans: Arena, owner: PageOwner, pageMap: PageOwner, off: set<SpanPtr>, k: SpanPtr)
    requires Geometry(spans, owner, pageMap) && k in spans
    requires (spans[k].start - 1) in owner ==>
      var d := owner[spans[k].start - 1]; d in off || spans[d].location != spans[k].location || spans[k].location == InUse
    ensures LeftClear(spans, off, k)
  {
    forall a | a in spans && a !in off ensures !Clash(spans[a], spans[k]) {
      if spans[a].End() == spans[k].start {
        assert spans[a].Covers(spans[k].start - 1);
      }
    }
  }

  lemma RightNeighbour(spans: Arena, owner: PageOwner, pageMap: PageOwner, off: set<SpanPtr>, k: SpanPtr)
    requires Geometry(spans, owner, pageMap) && k in spans
    requires spans[k].End() in owner ==>
      var d := owner[spans[k].End()]; d in off || spans[d].location != spans[k].location || spans[k].location == InUse
    ensures RightClear(spans, off, k)
  {
    forall b | b in spans && b !in off ensures !Clash(spans[k], spans[b]) {
      if spans[k].End() == spans[b].start {
        assert spans[b].Covers(spans[b].start);
      }
    }
  }

  /** Listing a span that clashes with nothing keeps the heap coalesced. */
  lemma LinkCoalesced(spans: Arena, off: set<SpanPtr>, k: SpanPtr)
    requires Coalesced(spans, off) && k in off && k in spans && spans[k].length >= 1
    requires LeftClear(spans, off, k) && RightClear(spans, off, k)
    ensures Coalesced(spans, off - {k})
  {
  }

  /** Merging the left neighbour o into k: whatever is now left of k was left of o. */
  lemma AbsorbLeftClear(spans: Arena, off: set<SpanPtr>, k: SpanPtr, o: SpanPtr)
    requires k in spans && o in spans && k in off && o !in off && Coalesced(spans, off)
    requires spans[o].End() == spans[k].start && spans[o].location == spans[k].location && 1 <= spans[o].length && 1 <= spans[k].length
    ensures LeftClear(Absorb(spans, k, o), off, k) && Coalesced(Absorb(spans, k, o), off)
  {
    var spans' := Absorb(spans, k, o);
    forall a | a in spans' && a !in off ensures !Clash(spans'[a], spans'[k]) {
      assert !Clash(spans[a], spans[o]);
    }
    forall a, b | a in spans' && b in spans' && a !in off && b !in off ensures !Clash(spans'[a], spans'[b]) {
      assert !Clash(spans[a], spans[b]);
    }
  }

  /** Merging the right neighbour o into k keeps the left side clear and clears the right. */
  lemma AbsorbRightClear(spans: Arena, off: set<SpanPtr>, k: SpanPtr, o: SpanPtr)
    requires k in spans && o in spans && k in off && o !in off && Coalesced(spans, off) && LeftClear(spans, off, k)
    requires spans[k].End() == spans[o].start && spans[o].location == spans[k].location && 1 <= spans[o].length && 1 <= spans[k].length
    ensures LeftClear(Absorb(spans, k, o), off, k) && RightClear(Absorb(spans, k, o), off, k) && Coalesced(Absorb(spans, k, o), off)
  {
    var spans' := Absorb(spans, k, o);
    forall a | a in spans' && a !in off ensures !Clash(spans'[a], spans'[k]) && !Clash(spans'[k], spans'[a]) {
      assert !Clash(spans[a], spans[k]) && !Clash(spans[o], spans[a]);
    }
    forall a, b | a in spans' && b in spans' && a !in off && b !in off ensures !Clash(spans'[a], spans'[b]) {
      assert !Clash(spans[a], spans[b]);
    }
  }

  /** The tail of a carved span needs no merging: before it lies the carved span, and
      what follows was already next to a span of the tail's location. */
  lemma CutCoalesced(spans: Arena, owner: PageOwner, k: SpanPtr, n: int, t: SpanPtr)
    requires Tiled(spans, owner) && k in spans && t !in spans && 0 < n < spans[k].length && spans[k].location != InUse && Coalesced(spans, {})
    ensures Coalesced(Cut(Relabel(spans, k, InUse), k, n, t, spans[k].location), {})
  {
    var loc := spans[k].location;
    var spans' := Cut(Relabel(spans, k, InUse), k, n, t, loc);
    forall a, b | a in spans' && b in spans' ensures !Clash(spans'[a], spans'[b]) {
      if a == t && b != t && b != k {
        assert !Clash(spans[k], spans[b]);
      } else if b == t && a != t && a != k && spans[a].End() == spans[k].start + n {
        assert spans[a].Covers(spans[a].End() - 1) && spans[k].Covers(spans[a].End() - 1);
      } else if a != t && b != t && a != k && b != k {
        assert !Clash(spans[a], spans[b]);
      }
    }
  }

  // ---- What clients of the page heap see ----

  /** The spans in use. */
  ghost function Used(spans: Arena): Arena {
    map k | k in spans && spans[k].location == InUse :: spans[k]
  }

  /** Some free span has at least n pages. */
  ghost predicate FitsFree(spans: Arena, n: int) {
    exists k | k in spans :: spans[k].location != InUse && spans[k].length >= n
  }

  /** Every length that could be served from a free span still can. */
  ghost predicate NoSmaller(spans: Arena, spans': Arena) {
    forall k | k in spans && spans[k].location != InUse :: FitsFree(spans', spans[k].length)
  }

  lemma NoSmallerSteps(a: Arena, b: Arena, c: Arena)
    requires NoSmaller(a, b) && NoSmaller(b, c)
    ensures NoSmaller(a, c)
  {
  }

  lemma NoSmallerSame(a: Arena)
    ensures NoSmaller(a, a)
  {
  }

  /** Decommitting a free span changes nothing clients see. */
  lemma RelabelClient(spans: Arena, k: SpanPtr, loc: Location)
    requires k in spans && spans[k].location != InUse && loc != InUse
    ensures Used(Relabel(spans, k, loc)) == Used(spans) && NoSmaller(spans, Relabel(spans, k, loc))
  {
    var spans' := Relabel(spans, k, loc);
    forall x | x in spans && spans[x].location != InUse ensures FitsFree(spans', spans[x].length) {
      assert x in spans' && spans'[x].length == spans[x].length;
    }
  }

  /** Neither does merging two free spans. */
  lemma AbsorbClient(spans: Arena, k: SpanPtr, o: SpanPtr)
    requires k in spans && o in spans && k != o && spans[k].location != InUse && spans[o].location != InUse
    requires spans[k].length >= 0 && spans[o].length >= 0
    ensures Used(Absorb(spans, k, o)) == Used(spans) && NoSmaller(spans, Absorb(spans, k, o))
  {
    AbsorbFits(spans, k, o);
  }

  lemma AbsorbFits(spans: Arena, k: SpanPtr, o: SpanPtr)
    requires k in spans && o in spans && k != o && spans[k].location != InUse && spans[o].location != InUse
    requires spans[k].length >= 0 && spans[o].length >= 0
    ensures NoSmaller(spans, Absorb(spans, k, o))
  {
    hide FitsFree;
    var spans' := Absorb(spans, k, o);
    forall x | x in spans && spans[x].location != InUse ensures FitsFree(spans', spans[x].length) {
      FitsWitness(spans', if x == o then k else x, spans[x].length);
    }
  }

  lemma FitsWitness(spans: Arena, k: SpanPtr, n: int)
    requires k in spans && spans[k].location != InUse && spans[k].length >= n
    ensures FitsFree(spans, n)
  {
  }

  /** k, free throughout, may have merged with free neighbours. */
  ghost predicate Grows(spans: Arena, spans': Arena, k: SpanPtr) {
    && k in spans && k in spans'
    && spans[k].location == spans'[k].location != InUse && spans'[k].sizeClass == spans[k].sizeClass
    && spans'[k].length >= spans[k].length
    && Used(spans') == Used(spans) && NoSmaller(spans, spans')
  }

  // ---- Descriptors found through the page map ----

  /** The entry before a span's first page is empty or names the span ending there. */
  lemma LeftDescriptor(spans: Arena, owner: PageOwner, pageMap: PageOwner, k: SpanPtr)
    requires Geometry(spans, owner, pageMap) && k in spans && NULL !in spans
    ensures var p := spans[k].start - 1;
            && (p in pageMap <==> p in owner)
            && (p in owner ==> var d := pageMap[p];
                  d == owner[p] && d in spans && d != k && spans[d].End() == spans[k].start && spans[d].length >= 1)
    ensures spans[k].length >= 1
  {
    var p := spans[k].start - 1;
    if p in owner {
      var d := owner[p];
      assert spans[k].Covers(spans[k].start);
      if d == k || spans[d].End() > p + 1 {
        assert spans[d].Covers(p + 1);
        assert false;
      }
    }
  }

  /** The entry after a span's last page is empty or names the span starting there. */
  lemma RightDescriptor(spans: Arena, owner: PageOwner, pageMap: PageOwner, k: SpanPtr)
    requires Geometry(spans, owner, pageMap) && k in spans
    ensures var p := spans[k].End();
            && (p in pageMap <==> p in owner)
            && (p in owner ==> var d := pageMap[p];
                  d == owner[p] && d in spans && d != k && spans[k].End() == spans[d].start && spans[d].length >= 1)
    ensures spans[k].length >= 1
  {
    var p := spans[k].End();
    if p in owner {
      var d := owner[p];
      assert spans[k].Covers(p - 1);
      if d == k || spans[d].start < p {
        assert spans[d].Covers(p - 1);
        assert false;
      }
    }
  }

  /** Every page of the heap belongs to spans of exactly one location. */
  lemma PagesByLocation(spans: Arena, owner: PageOwner)
    requires Tiled(spans, owner)
    ensures |owner.Keys| == |PagesOf(owner, Members(spans, {}, InUse))| + |PagesOf(owner, Members(spans, {}, OnNormal))|
                            + |PagesOf(owner, Members(spans, {}, OnReturned))|
  {
    var a, b, c := Members(spans, {}, InUse), Members(spans, {}, OnNormal), Members(spans, {}, OnReturned);
    forall p ensures p in owner <==> p in PagesOf(owner, a) + PagesOf(owner, b) + PagesOf(owner, c) {
      if p in owner {
        var k := owner[p];
        assert k in a || k in b || k in c;
      }
    }
    assert owner.Keys == PagesOf(owner, a) + PagesOf(owner, b) + PagesOf(owner, c);
  }

  /** A held span and a listed normal one take room beside the returned pages. */
  lemma RoomBeside(spans: Arena, owner: PageOwner, pageMap: PageOwner, f: FreeLists, unmapped: int, k: SpanPtr, o: SpanPtr)
    requires Geometry(spans, owner, pageMap) && k in spans && o in spans && k != o && spans[o].location != OnReturned
    requires Shelved(spans, owner, {k}, OnReturned, f, unmapped)
    ensures unmapped + PAGE_SIZE * (spans[k].length + spans[o].length) <= PAGE_SIZE * |owner.Keys|
    ensures spans[k].length >= 1 && spans[o].length >= 1
  {
    hide Mapped, FreeUnclassed, Listed;
    var members := Members(spans, {k}, OnReturned);
    JoinPages(spans, owner, members, k);
    JoinPages(spans, owner, members + {k}, o);
    SubsetSize(PagesOf(owner, members + {k} + {o}), owner.Keys);
  }

  lemma RoomBesideHeld(spans: Arena, owner: PageOwner, pageMap: PageOwner, f: FreeLists, unmapped: int, k: SpanPtr)
    requires Geometry(spans, owner, pageMap) && k in spans && Shelved(spans, owner, {k}, OnReturned, f, unmapped)
    ensures unmapped + PAGE_SIZE * spans[k].length <= PAGE_SIZE * |owner.Keys|
    ensures spans[k].length >= 1
  {
    var members := Members(spans, {k}, OnReturned);
    JoinPages(spans, owner, members, k);
    SubsetSize(PagesOf(owner, members + {k}), owner.Keys);
  }

  lemma SubsetSize<T>(a: set<T>, b: set<T>)
    requires a <= b
    ensures |a| <= |b|
  {
    assert b == a + (b - a);
  }

  // ---- Freeing and carving, as clients see them ----

  lemma FreeClient(spans: Arena, k: SpanPtr)
    requires k in spans && spans[k].location == InUse
    ensures var u := Relabel(spans, k, OnNormal);
            Used(u) == Used(spans) - {k} && NoSmaller(spans, u) && FitsFree(u, spans[k].length)
  {
    var u := Relabel(spans, k, OnNormal);
    assert u[k].length == spans[k].length;
    forall x | x in spans && spans[x].location != InUse ensures FitsFree(u, spans[x].length) {
      assert x in u && u[x].length == spans[x].length;
    }
  }

  lemma FitsFreeLater(a: Arena, b: Arena, n: int)
    requires FitsFree(a, n) && NoSmaller(a, b)
    ensures FitsFree(b, n)
  {
    var k :| k in a && a[k].location != InUse && a[k].length >= n;
    var x :| x in b && b[x].location != InUse && b[x].length >= a[k].length;
  }

  /** A held span in use need not be held, and need not stay unheld. */
  lemma HoldUsed(spans: Arena, owner: PageOwner, pageMap: PageOwner, off: set<SpanPtr>, loc: Location, f: FreeLists, bytes: int, k: SpanPtr)
    requires Geometry(spans, owner, pageMap) && k in spans && spans[k].location == InUse != loc
    requires Shelved(spans, owner, off, loc, f, bytes)
    ensures Shelved(spans, owner, off + {k}, loc, f, bytes) && Shelved(spans, owner, off - {k}, loc, f, bytes)
  {
    assert Members(spans, off + {k}, loc) == Members(spans, off, loc) == Members(spans, off - {k}, loc);
  }

  /** A listed normal span lies beside the returned pages. */
  lemma RoomListed(spans: Arena, owner: PageOwner, pageMap: PageOwner, f: FreeLists, unmapped: int, k: SpanPtr)
    requires Geometry(spans, owner, pageMap) && k in spans && spans[k].location != OnReturned
    requires Shelved(spans, owner, {}, OnReturned, f, unmapped)
    ensures unmapped + PAGE_SIZE * spans[k].length <= PAGE_SIZE * |owner.Keys| && spans[k].length >= 1
  {
    var members := Members(spans, {}, OnReturned);
    JoinPages(spans, owner, members, k);
    SubsetSize(PagesOf(owner, members + {k}), owner.Keys);
  }

  lemma EmptyShelved(loc: Location, f: FreeLists)
    requires f == FreeLists(seq(MAX_PAGES, i => []), {})
    ensures Shelved(map[], map[], {}, loc, f, 0)
  {
    assert Members(map[], {}, loc) == {};
    assert PagesOf(map[], {}) == {};
  }

  lemma ShelvedShape(spans: Arena, owner: PageOwner, off: set<SpanPtr>, loc: Location, f: FreeLists, bytes: int)
    requires Shelved(spans, owner, off, loc, f, bytes)
    ensures |f.small| == MAX_PAGES
  {
  }

  lemma ShelvedBytes(spans: Arena, owner: PageOwner, off: set<SpanPtr>, loc: Location, f: FreeLists, bytes: int)
    requires Shelved(spans, owner, off, loc, f, bytes)
    ensures bytes >= 0 && bytes % PAGE_SIZE == 0
  {
  }

  // ---- Releasing ----

  /** What releasing memory may change: the spans, the pages held and three counters. */
  datatype View = View(spans: Arena, pages: set<int>, free: int, unmapped: int, committed: int)

  /** From a to b at least n pages' worth of free memory went back to the system and
      nothing else happened that a client could see. With `exact` (no aggressive
      decommitting) the committed memory fell by exactly n pages, and a coalesced heap
      stayed coalesced. */
  ghost predicate ReleasedBy(a: View, b: View, n: int, exact: bool) {
    && n >= 0
    && Used(b.spans) == Used(a.spans) && b.pages == a.pages && NoSmaller(a.spans, b.spans)
    && b.free + b.unmapped == a.free + a.unmapped
    && b.free <= a.free - PAGE_SIZE * n
    && b.committed <= a.committed - PAGE_SIZE * n
    && (exact ==> b.committed == a.committed - PAGE_SIZE * n && b.free == a.free - PAGE_SIZE * n)
    && (exact && Coalesced(a.spans, {}) ==> Coalesced(b.spans, {}))
  }

  lemma ReleasedNone(a: View, exact: bool)
    ensures ReleasedBy(a, a, 0, exact)
  {
    NoSmallerSame(a.spans);
  }

  lemma ReleasedBytes(a: View, b: View, n: int, exact: bool)
    requires ReleasedBy(a, b, n, exact)
    ensures b.free <= a.free - PAGE_SIZE * n && b.unmapped >= a.unmapped + PAGE_SIZE * n && b.pages == a.pages
  {
  }

  lemma ReleasedFits(a: View, b: View, n: int, exact: bool, m: int)
    requires ReleasedBy(a, b, n, exact) && FitsFree(a.spans, m)
    ensures FitsFree(b.spans, m)
  {
    FitsFreeLater(a.spans, b.spans, m);
  }

  lemma ReleasedSteps(a: View, b: View, c: View, n: int, m: int, exact: bool)
    requires ReleasedBy(a, b, n, exact) && ReleasedBy(b, c, m, exact)
    ensures ReleasedBy(a, c, n + m, exact)
  {
    NoSmallerSteps(a.spans, b.spans, c.spans);
  }

  /** The free lists in the order the release loop visits them; the last is the large set. */
  ghost predicate EmptyAt(f: FreeLists, i: int)
    requires |f.small| == MAX_PAGES && 0 <= i <= MAX_PAGES
  {
    if i == MAX_PAGES then f.large == {} else f.small[i] == []
  }

  /** The list visited j steps after list r, going round. */
  ghost function Round(r: int, j: int): int { if r + j <= MAX_PAGES then r + j else r + j - (MAX_PAGES + 1) }

  lemma OnListNotEmpty(f: FreeLists, k: SpanPtr, length: int)
    requires |f.small| == MAX_PAGES && length >= 1 && OnItsList(f, k, length)
    ensures !EmptyAt(f, if length > MAX_PAGES then MAX_PAGES else length - 1)
  {
  }

  /** If a whole round found every list empty, nothing is free at that location. */
  lemma RoundEmpty(spans: Arena, owner: PageOwner, loc: Location, f: FreeLists, bytes: int, r: int)
    requires Shelved(spans, owner, {}, loc, f, bytes) && 0 <= r <= MAX_PAGES
    requires forall j | 0 <= j <= MAX_PAGES :: EmptyAt(f, Round(r, j))
    ensures bytes == 0
  {
    forall i | 0 <= i <= MAX_PAGES ensures EmptyAt(f, i) {
      var j := if r <= i then i - r else i - r + (MAX_PAGES + 1);
      assert Round(r, j) == i;
    }
    var m := Members(spans, {}, loc);
    forall k | k in m ensures false {
      OnListNotEmpty(f, k, spans[k].length);
    }
    assert PagesOf(owner, m) == {};
  }

  /** Something listed at index i is a span of that location. */
  lemma ListedAt(spans: Arena, owner: PageOwner, loc: Location, f: FreeLists, bytes: int)
    requires Shelved(spans, owner, {}, loc, f, bytes)
    ensures |f.small| == MAX_PAGES && f.large <= spans.Keys
    ensures forall i, k | 0 <= i < MAX_PAGES && k in f.small[i] :: k in spans && spans[k].location == loc && spans[k].length == i + 1
    ensures forall k | k in f.large :: k in spans && spans[k].location == loc && spans[k].length > MAX_PAGES
  {
    hide Members;
    MembersAt(spans, loc);
    ListedMembers(spans, Members(spans, {}, loc), f);
  }

  lemma ListedMembers(spans: Arena, members: set<SpanPtr>, f: FreeLists)
    requires members <= spans.Keys && Listed(spans, members, f)
    ensures |f.small| == MAX_PAGES && f.large <= members
    ensures forall i, k | 0 <= i < MAX_PAGES && k in f.small[i] :: k in members && spans[k].length == i + 1
    ensures forall k | k in f.large :: k in members && spans[k].length > MAX_PAGES
  {
  }

  lemma MembersAt(spans: Arena, loc: Location)
    ensures Members(spans, {}, loc) <= spans.Keys
    ensures forall k | k in Members(spans, {}, loc) :: k in spans && spans[k].location == loc
  {
  }

  // ---- Best fit ----

  /** The order of the sets of large spans: shorter first, then by address. */
  predicate BestFitLess(a: Rec, b: Rec) {
    a.length < b.length || (a.length == b.length && a.start < b.start)
  }

  lemma {:induction false} LeastExists(spans: Arena, c: set<SpanPtr>)
    requires c <= spans.Keys && c != {}
    ensures exists r :: r in c && forall x | x in c :: !BestFitLess(spans[x], spans[r])
    decreases |c|
  {
    var k :| k in c;
    var rest := c - {k};
    if rest == {} {
      assert c == {k};
    } else {
      LeastExists(spans, rest);
      var r :| r in rest && forall x | x in rest :: !BestFitLess(spans[x], spans[r]);
      var best := if BestFitLess(spans[k], spans[r]) then k else r;
      forall x | x in c ensures !BestFitLess(spans[x], spans[best]) {
        assert x == k || x in rest;
      }
    }
  }

  // ---- Serving a request ----

  /** From a to b the heap handed out span r of n pages, and nothing else that a client
      could see happened. */
  ghost predicate Serves(a: View, b: View, r: SpanPtr, n: int, exact: bool) {
    && r !in Used(a.spans) && r in b.spans && n >= 1
    && Used(b.spans) == Used(a.spans)[r := Rec(b.spans[r].start, n, InUse, 0)]
    && b.pages == a.pages
    && b.free + b.unmapped == a.free + a.unmapped - PAGE_SIZE * n
    && (exact && Coalesced(a.spans, {}) ==> Coalesced(b.spans, {}))
  }

  lemma ServesAfterRelease(a: View, b: View, c: View, released: int, r: SpanPtr, n: int, exact: bool)
    requires ReleasedBy(a, b, released, exact) && Serves(b, c, r, n, exact)
    ensures Serves(a, c, r, n, exact)
  {
  }

  /** Handing out all of a free span. */
  lemma ServeWhole(spans: Arena, k: SpanPtr)
    requires k in spans && spans[k].location != InUse
    ensures Used(Relabel(spans, k, InUse)) == Used(spans)[k := Relabel(spans, k, InUse)[k]]
    ensures k !in Used(spans)
    ensures Coalesced(spans, {}) ==> Coalesced(Relabel(spans, k, InUse), {})
  {
    var u := Relabel(spans, k, InUse);
    if Coalesced(spans, {}) {
      forall a, b | a in u && b in u ensures !Clash(u[a], u[b]) {
        assert !Clash(spans[a], spans[b]);
      }
    }
  }

  /** Handing out the first n pages of a free span. */
  lemma ServePart(spans: Arena, owner: PageOwner, pageMap: PageOwner, k: SpanPtr, n: int, t: SpanPtr)
    requires Geometry(spans, owner, pageMap) && k in spans && spans[k].location != InUse
    requires t !in spans && 0 < n < spans[k].length
    ensures var u := Cut(Relabel(spans, k, InUse), k, n, t, spans[k].location);
            && Used(u) == Used(spans)[k := Rec(spans[k].start, n, InUse, 0)]
            && (Coalesced(spans, {}) ==> Coalesced(u, {}))
  {
    var u := Cut(Relabel(spans, k, InUse), k, n, t, spans[k].location);
    assert Used(u) == Used(spans)[k := Rec(spans[k].start, n, InUse, 0)];
    if Coalesced(spans, {}) {
      CutCoalesced(spans, owner, k, n, t);
    }
  }

  /** Splitting a used span. */
  lemma SplitClient(spans: Arena, owner: PageOwner, pageMap: PageOwner, k: SpanPtr, n: int, t: SpanPtr)
    requires Geometry(spans, owner, pageMap) && k in spans && spans[k].location == InUse
    requires t !in spans && 0 < n < spans[k].length
    ensures var u := Cut(spans, k, n, t, InUse);
            && Used(u) == Used(spans)[k := Head(spans[k], n)][t := Tail(spans[k], n, InUse)]
            && NoSmaller(spans, u) && (Coalesced(spans, {}) ==> Coalesced(u, {}))
  {
    var u := Cut(spans, k, n, t, InUse);
    assert Used(u) == Used(spans)[k := Head(spans[k], n)][t := Tail(spans[k], n, InUse)];
    forall x | x in spans && spans[x].location != InUse ensures FitsFree(u, spans[x].length) {
      assert x in u && u[x].length == spans[x].length;
    }
    if Coalesced(spans, {}) {
      forall a, b | a in u && b in u ensures !Clash(u[a], u[b]) {
        if a in spans && b in spans {
          assert !Clash(spans[a], spans[b]);
        }
      }
    }
  }

  ghost predicate Fits(spans: Arena, k: SpanPtr, n: int) {
    k in spans && spans[k].location != InUse && spans[k].length >= n
  }

  /** k is a shortest free span of at least n pages; among the large ones, the one at the
      lowest address. */
  ghost predicate BestFit(spans: Arena, k: SpanPtr, n: int) {
    && Fits(spans, k, n)
    && (forall x | Fits(spans, x, n) ::
          && spans[k].length <= spans[x].length
          && (spans[k].length > MAX_PAGES ==> !BestFitLess(spans[x], spans[k])))
  }

  /** Every free span of n pages or more has at least m. */
  ghost predicate NoneShorter(spans: Arena, n: int, m: int) {
    forall x | Fits(spans, x, n) :: spans[x].length >= m
  }

  /** The least length that is large and at least n. */
  ghost function LargeEnough(n: int): int { if n > MAX_PAGES then n else MAX_PAGES + 1 }

  /** Is r the first of the large set with at least n pages, NULL if there is none? */
  ghost predicate FirstLarge(spans: Arena, large: set<SpanPtr>, n: int, r: SpanPtr)
    requires large <= spans.Keys
  {
    if r == NULL then forall x | x in large :: spans[x].length < n
    else r in large && spans[r].length >= n && forall x | x in large && spans[x].length >= n :: !BestFitLess(spans[x], spans[r])
  }

  /** The better of the two sets' first spans is the best fit among the large spans. */
  lemma LargeBest(spans: Arena, owner: PageOwner, nf: FreeLists, nb: int, rf: FreeLists, rb: int, n: int,
                  a: SpanPtr, c: SpanPtr, best: SpanPtr)
    requires Shelved(spans, owner, {}, OnNormal, nf, nb) && Shelved(spans, owner, {}, OnReturned, rf, rb)
    requires nf.large <= spans.Keys && rf.large <= spans.Keys && NULL !in spans
    requires FirstLarge(spans, nf.large, n, a) && FirstLarge(spans, rf.large, n, c)
    requires best == if c != NULL && (a == NULL || BestFitLess(spans[c], spans[a])) then c else a
    ensures best == NULL ==> !FitsFree(spans, LargeEnough(n))
    ensures best != NULL ==> FitsFree(spans, LargeEnough(n)) && best in spans && spans[best].location != InUse
    ensures best != NULL && best == a ==> spans[best].location == OnNormal
    ensures best != NULL ==> spans[best].length >= LargeEnough(n)
    ensures NoneShorter(spans, n, MAX_PAGES + 1) ==>
      (best == NULL ==> !FitsFree(spans, n)) && (best != NULL ==> BestFit(spans, best, n))
  {
    forall x | Fits(spans, x, LargeEnough(n))
      ensures best != NULL && !BestFitLess(spans[x], spans[best]) {
      assert x in Members(spans, {}, OnNormal) || x in Members(spans, {}, OnReturned);
      assert OnItsList(if spans[x].location == OnNormal then nf else rf, x, spans[x].length);
    }
    if best != NULL {
      assert Fits(spans, best, LargeEnough(n));
    }
    if NoneShorter(spans, n, MAX_PAGES + 1) {
      forall x | Fits(spans, x, n) ensures Fits(spans, x, LargeEnough(n)) {}
      if FitsFree(spans, n) {
        var x :| x in spans && spans[x].location != InUse && spans[x].length >= n;
        assert Fits(spans, x, n);
      }
    }
    if FitsFree(spans, LargeEnough(n)) {
      var x :| x in spans && spans[x].location != InUse && spans[x].length >= LargeEnough(n);
      assert Fits(spans, x, LargeEnough(n));
    }
  }

  lemma NoneShorterStart(spans: Arena, n: int)
    ensures NoneShorter(spans, n, n)
  {
  }

  lemma NoneShorterLarge(spans: Arena, n: int, m: int)
    requires m >= n && m >= MAX_PAGES + 1
    ensures NoneShorter(spans, n, m) ==> NoneShorter(spans, n, MAX_PAGES + 1)
  {
  }

  /** A span on the list of the shortest length not ruled out is a best fit. */
  lemma FrontBest(spans: Arena, owner: PageOwner, loc: Location, f: FreeLists, bytes: int, n: int, m: int)
    requires Shelved(spans, owner, {}, loc, f, bytes) && loc != InUse && 1 <= n <= m <= MAX_PAGES
    ensures |f.small| == MAX_PAGES
    ensures f.small[m - 1] != [] ==>
      var k := f.small[m - 1][0];
      && k in spans && spans[k].location == loc && spans[k].length == m
      && (NoneShorter(spans, n, m) ==> BestFit(spans, k, n))
  {
    if f.small[m - 1] != [] {
      var k := f.small[m - 1][0];
      assert k in f.small[m - 1];
      assert k in Members(spans, {}, loc);
    }
  }

  /** Empty lists rule their length out. */
  lemma NoneShorterStep(spans: Arena, owner: PageOwner, nf: FreeLists, nb: int, rf: FreeLists, rb: int, n: int, m: int)
    requires Shelved(spans, owner, {}, OnNormal, nf, nb) && Shelved(spans, owner, {}, OnReturned, rf, rb)
    requires 1 <= n <= m <= MAX_PAGES && |nf.small| == |rf.small| == MAX_PAGES
    requires nf.small[m - 1] == [] && rf.small[m - 1] == [] && NoneShorter(spans, n, m)
    ensures NoneShorter(spans, n, m + 1)
  {
    forall x | Fits(spans, x, n) ensures spans[x].length >= m + 1 {
      assert x in Members(spans, {}, OnNormal) || x in Members(spans, {}, OnReturned);
      assert OnItsList(if spans[x].location == OnNormal then nf else rf, x, spans[x].length);
    }
  }

  /** From a to b the heap may have grown and reorganised its free spans. */
  ghost predicate Reorganised(a: View, b: View, exact: bool) {
    && Used(b.spans) == Used(a.spans) && a.pages <= b.pages && NoSmaller(a.spans, b.spans)
    && (exact && Coalesced(a.spans, {}) ==> Coalesced(b.spans, {}))
  }

  /** From a to b a request of n pages was served by r, after any such reorganisation. */
  ghost predicate Allocated(a: View, b: View, r: SpanPtr, n: int, exact: bool) {
    && r !in Used(a.spans) && r in b.spans && n >= 1 && a.pages <= b.pages
    && Used(b.spans) == Used(a.spans)[r := Rec(b.spans[r].start, n, InUse, 0)]
    && (exact && Coalesced(a.spans, {}) ==> Coalesced(b.spans, {}))
  }

  lemma ReorganisedNone(a: View, exact: bool)
    ensures Reorganised(a, a, exact)
  {
    NoSmallerSame(a.spans);
  }

  lemma ReorganisedSteps(a: View, b: View, c: View, released: int, r: SpanPtr, n: int, exact: bool)
    ensures ReleasedBy(a, b, released, exact) ==> Reorganised(a, b, exact)
    ensures Reorganised(a, b, exact) && Reorganised(b, c, exact) ==> Reorganised(a, c, exact)
    ensures Reorganised(a, b, exact) && Serves(b, c, r, n, exact) ==> Allocated(a, c, r, n, exact)
  {
    if Reorganised(a, b, exact) && Reorganised(b, c, exact) {
      NoSmallerSteps(a.spans, b.spans, c.spans);
    }
  }

  /** New pages, briefly in use, change nothing about the spans that were there. */
  lemma GrownClient(spans: Arena, k: SpanPtr, r: Rec)
    requires k !in spans && r.location == InUse
    ensures Used(spans[k := r]) == Used(spans)[k := r] && Used(spans[k := r]) - {k} == Used(spans)
    ensures NoSmaller(spans, spans[k := r])
    ensures Coalesced(spans, {}) ==> Coalesced(spans[k := r], {})
  {
    var u := spans[k := r];
    forall x | x in spans && spans[x].location != InUse ensures FitsFree(u, spans[x].length) {
      assert x in u && u[x].length == spans[x].length;
    }
    if Coalesced(spans, {}) {
      forall a, b | a in u && b in u ensures !Clash(u[a], u[b]) {
        if a in spans && b in spans {
          assert !Clash(spans[a], spans[b]);
        }
      }
    }
  }
}
