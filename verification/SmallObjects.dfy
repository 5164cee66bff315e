/** Small objects over all tiers: the central lists that Tiers describes, under the caches
    of the threads that ThreadCache describes. */
module SmallObjects {
  import opened Arith
  import opened PageSpace
  import T = Tiers
  import C = ThreadCache
  import S = SizeMap

  type Obj = T.Obj
  type ClassId = T.ClassId

  // ---- Carving a span ----

  /** The objects of a size that a span of pages is carved into: as many as fit. */
  function Capacity(pages: nat, size: nat): (n: nat)
    requires size > 0
    ensures n * size <= PAGE_SIZE * pages < (n + 1) * size
  {
    BlockEnd(PAGE_SIZE * pages, size);
    PAGE_SIZE * pages / size
  }

  /** The carving loop: one object after the other from the start of the span, as long as
      one fits. Their number is the span's size divided by theirs. */
  method Carve(start: nat, pages: nat, size: nat) returns (objects: seq<nat>)
    requires size > 0
    ensures |objects| == Capacity(pages, size)
    ensures forall i | 0 <= i < |objects| :: objects[i] == PAGE_SIZE * start + i * size
    ensures forall i | 0 <= i < |objects| :: objects[i] + size <= PAGE_SIZE * (start + pages)
    ensures forall i | 0 <= i < |objects| :: start <= objects[i] / PAGE_SIZE < start + pages
  {
    objects := [];
    var ptr := PAGE_SIZE * start;
    var limit := ptr + PAGE_SIZE * pages;
    while ptr + size <= limit
      invariant ptr == PAGE_SIZE * start + |objects| * size && ptr <= limit
      invariant forall i | 0 <= i < |objects| :: objects[i] == PAGE_SIZE * start + i * size
      invariant forall i | 0 <= i < |objects| :: PAGE_SIZE * start <= objects[i] && objects[i] + size <= limit
      decreases limit - ptr
    {
      objects := objects + [ptr];
      ptr := ptr + size;
    }
    DivUnique(PAGE_SIZE * pages, size, |objects|, limit - ptr);
  }

  /** A span that wastes at most an eighth of its size holds an object. */
  lemma CapacityPositive(pages: nat, size: nat)
    requires pages > 0 && size > 0 && PAGE_SIZE * pages % size <= PAGE_SIZE * pages / 8
    ensures Capacity(pages, size) >= 1
  {
    var bytes := PAGE_SIZE * pages;
    if bytes < size {
      DivUnique(bytes, size, 0, bytes);
    } else {
      BlockBelow(bytes, size, 1);
    }
  }

  const MAX_TRANSFERS: int := 64

  /** The limit of a class's transfer cache: as many chains as a megabyte holds, but at
      least one and at most 64. */
  function MaxCache(size: nat, batch: nat): (n: int)
    requires size > 0 && batch > 0
    ensures 1 <= n <= MAX_TRANSFERS
    ensures n > 1 ==> n * (size * batch) <= 0x10_0000
    ensures n < MAX_TRANSFERS ==> (n + 1) * (size * batch) > 0x10_0000
  {
    MulBig(size, batch);
    var most := if 0x10_0000 / (size * batch) > 1 then 0x10_0000 / (size * batch) else 1;
    var n := if most < MAX_TRANSFERS then most else MAX_TRANSFERS;
    ChainsWithin(size * batch, n);
    n
  }

  lemma ChainsWithin(chain: int, n: nat)
    requires chain > 0
    ensures n <= 0x10_0000 / chain ==> n * chain <= 0x10_0000
    ensures n >= 0x10_0000 / chain ==> (n + 1) * chain > 0x10_0000
  {
    var q := 0x10_0000 / chain;
    BlockEnd(0x10_0000, chain);
    if n <= q {
      MulNonNeg(q - n, chain);
      assert n * chain + (q - n) * chain == q * chain;
    }
    if n >= q {
      MulNonNeg(n - q, chain);
      assert (n + 1) * chain == (q + 1) * chain + (n - q) * chain;
    }
  }

  /** What the central lists need of the size map, from class 1 on: class 0 has no objects. */
  ghost predicate Usable(sizes: seq<int>, pages: seq<int>, moves: seq<int>) {
    && |sizes| == |pages| == |moves| >= 1
    && forall c | 1 <= c < |sizes| ::
         sizes[c] > 0 && pages[c] > 0 && moves[c] > 0 && PAGE_SIZE * pages[c] % sizes[c] <= PAGE_SIZE * pages[c] / 8
  }

  /** A class's list is set up by its size, pages and objects moved at a time. */
  ghost predicate SetUp(g: T.Config, c: nat, size: nat, pages: nat, moves: int) {
    && c < |g.batch| == |g.capacity| == |g.maxCache| && g.batch[c] == moves
    && 1 <= g.capacity[c] && g.capacity[c] * size <= PAGE_SIZE * pages < (g.capacity[c] + 1) * size
    && 1 <= g.maxCache[c] <= MAX_TRANSFERS
    && (g.maxCache[c] > 1 ==> g.maxCache[c] * (size * moves) <= 0x10_0000)
    && (g.maxCache[c] < MAX_TRANSFERS ==> (g.maxCache[c] + 1) * (size * moves) > 0x10_0000)
  }

  /** The central lists of the size map's classes. The list of class 0 is never asked for
      objects, but its transfer cache has slots like any other, which others may take. */
  ghost function ConfigFor(sizes: seq<int>, pages: seq<int>, moves: seq<int>): (g: T.Config)
    requires Usable(sizes, pages, moves)
    ensures T.ConfigOk(g) && |g.batch| == |sizes| && g.maxCache[0] == MAX_TRANSFERS
    ensures forall c | 1 <= c < |sizes| :: SetUp(g, c, sizes[c], pages[c], moves[c])
  {
    T.Config(Batches(moves), Capacities(sizes, pages), Limits(sizes, moves))
  }

  function Batches(moves: seq<int>): (r: seq<nat>)
    requires forall c | 1 <= c < |moves| :: moves[c] > 0
    ensures |r| == |moves| && forall c | 0 <= c < |moves| :: r[c] >= 1 && (c > 0 ==> r[c] == moves[c])
  {
    seq(|moves|, c requires 0 <= c < |moves| => if c == 0 then 1 else moves[c])
  }

  function Capacities(sizes: seq<int>, pages: seq<int>): (r: seq<nat>)
    requires |sizes| == |pages| && forall c | 1 <= c < |sizes| :: sizes[c] > 0 && pages[c] > 0
    requires forall c | 1 <= c < |sizes| :: PAGE_SIZE * pages[c] % sizes[c] <= PAGE_SIZE * pages[c] / 8
    ensures |r| == |sizes| && forall c | 0 <= c < |sizes| :: r[c] >= 1
    ensures forall c | 1 <= c < |sizes| :: r[c] * sizes[c] <= PAGE_SIZE * pages[c] < (r[c] + 1) * sizes[c]
  {
    var r := seq(|sizes|, c requires 0 <= c < |sizes| => if c == 0 then 1 else Capacity(pages[c], sizes[c]));
    assert forall c | 1 <= c < |sizes| :: (CapacityPositive(pages[c], sizes[c]); r[c] >= 1);
    r
  }

  function Limits(sizes: seq<int>, moves: seq<int>): (r: seq<int>)
    requires |sizes| == |moves| && forall c | 1 <= c < |sizes| :: sizes[c] > 0 && moves[c] > 0
    ensures |r| == |sizes| && forall c | 0 <= c < |sizes| :: r[c] == if c == 0 then MAX_TRANSFERS else MaxCache(sizes[c], moves[c])
  {
    seq(|sizes|, c requires 0 <= c < |sizes| => if c == 0 then MAX_TRANSFERS else MaxCache(sizes[c], moves[c]))
  }

  /** The threads' caches of the size map's classes. */
  ghost function CachesFor(sizes: seq<int>, moves: seq<int>): (g: C.Config)
    requires |sizes| == |moves| >= 1
    requires forall c | 1 <= c < |sizes| :: sizes[c] > 0 && 0 < moves[c] <= C.MAX_DYNAMIC_LENGTH
    ensures g.Valid() && |g.sizes| == |sizes|
    ensures forall c | 1 <= c < |sizes| :: g.sizes[c] == sizes[c] && g.batch[c] == moves[c]
  {
    C.Config(seq(|sizes|, c requires 0 <= c < |sizes| => if c == 0 then 0 else sizes[c]),
             Batches(moves))
  }

  /** The size map of pages of 8K, with any positive transfer setting, suits both tiers. */
  lemma ClassesUsable(g: S.Config, sizes: seq<int>, pages: seq<int>, moves: seq<int>)
    requires g.pageShift == 13 && g.transfer >= 1 && S.Classes(g, sizes, pages) && |moves| == |sizes|
    requires forall c | 1 <= c < |sizes| :: moves[c] == S.NumMoveSize(g, sizes[c])
    ensures Usable(sizes, pages, moves) && forall c | 1 <= c < |sizes| :: moves[c] <= C.MAX_DYNAMIC_LENGTH
  {
    hide S.NumMoveSize;
    PageOfEightK();
    forall c | 1 <= c < |sizes|
      ensures sizes[c] > 0 && pages[c] > 0 && 0 < moves[c] <= C.MAX_DYNAMIC_LENGTH
      ensures PAGE_SIZE * pages[c] % sizes[c] <= PAGE_SIZE * pages[c] / 8
    {
      assert S.Candidate(g, sizes[c]) && S.LeastSpan(g, sizes[c], pages[c]);
      S.MovesSome(g, sizes[c]);
      assert S.Bytes(g, pages[c]) == PAGE_SIZE * pages[c];
    }
  }

  lemma PageOfEightK()
    ensures Pow2(13) == PAGE_SIZE
  {
    assert Pow2(3) == 8;
    assert Pow2(6) == 64;
    assert Pow2(9) == 512;
    assert Pow2(12) == 4096;
  }

  /** Starts the size map and what depends on it. */
  method InitStaticVars(sizeMap: S.SizeMap, g: S.Config) returns (r: S.Outcome, ghost central: T.Config, ghost cache: C.Config)
    requires g.Valid() && g.pageShift == 13 && g.transfer >= 1 && sizeMap.classArray.Length == S.CLASS_ARRAY_SIZE
    modifies sizeMap, sizeMap.classArray
    ensures r == S.Ready ==>
      && T.ConfigOk(central) && cache.Valid() && |central.batch| == |cache.sizes| == |sizeMap.classToSize|
      && |sizeMap.classToSize| == |sizeMap.classToPages| == |sizeMap.numObjectsToMove| == sizeMap.numSizeClasses
      && sizeMap.Exact()
      && forall c | 1 <= c < sizeMap.numSizeClasses ::
           && cache.sizes[c] == sizeMap.classToSize[c] > 0 && cache.batch[c] == sizeMap.numObjectsToMove[c]
           && sizeMap.classToPages[c] > 0
           && SetUp(central, c, sizeMap.classToSize[c], sizeMap.classToPages[c], sizeMap.numObjectsToMove[c])
  {
    hide S.Classes, S.Served, S.NumMoveSize, T.ConfigOk, SetUp;
    central, cache := T.Config([], [], []), C.Config([], []);
    r := sizeMap.Init(g);
    if r == S.Ready {
      ClassesWidth(g, sizeMap.classToSize, sizeMap.classToPages);
      ClassesUsable(g, sizeMap.classToSize, sizeMap.classToPages, sizeMap.numObjectsToMove);
      central := ConfigFor(sizeMap.classToSize, sizeMap.classToPages, sizeMap.numObjectsToMove);
      cache := CachesFor(sizeMap.classToSize, sizeMap.numObjectsToMove);
    }
  }

  lemma ClassesWidth(g: S.Config, sizes: seq<int>, pages: seq<int>)
    requires S.Classes(g, sizes, pages)
    ensures |sizes| == |pages| >= 1
  {
  }

  // ---- What threads see of the central lists ----

  function Elements(q: seq<Obj>): set<Obj> { C.Elements(q) }

  /** The objects of class c that the central lists have handed out. */
  ghost function Clients(s: T.State, c: ClassId): set<Obj> {
    set o | o in s.places && s.places[o] == T.Client && o.span in s.classOf && s.classOf[o.span] == c
  }

  /** What a step hands in or out: a chain of a class, of at most n objects when handed out. */
  datatype Exchange = Nothing | In(c: ClassId, chain: seq<Obj>) | Out(c: ClassId, n: nat, chain: seq<Obj>)

  ghost function ExchangeOf(g: T.Config, s: T.State, e: T.Event): Exchange
    requires T.Sound(g, s) && T.Enabled(s, e)
  {
    var p := s.pcs[e.t];
    assert T.InRange(p, |s.centrals|);
    match e
    case CallInsert(_, c, chain) => In(c, chain)
    case Work(t) =>
      (match p
       case Removing(c, n) =>
         if n == g.batch[c] && s.centrals[c].used > 0 then Out(c, n, T.At(s.lists, T.InSlot(c, s.centrals[c].used - 1))) else Nothing
       case Fetch(c, n, populated) =>
         var got := T.At(s.lists, T.Hand(t));
         if (|got| < n && s.centrals[c].nonempty != []) || (got == [] && !populated) then Nothing else Out(c, n, got)
       case _ => Nothing)
    case _ => Nothing
  }

  /** The change of the handed out objects of each class, as the central caches that
      ThreadCache relies on make it. */
  ghost predicate Exchanged(x: Exchange, c: ClassId, before: set<Obj>, after: set<Obj>) {
    match x
    case Nothing => after == before
    case In(d, chain) =>
      if d == c then T.Distinct(chain) && Elements(chain) <= before && after == before - Elements(chain) else after == before
    case Out(d, n, chain) =>
      if d == c then C.HandedOut(chain, n, before) && after == before + Elements(chain) else after == before
  }

  /** A thread that fetches has no more objects than it asked for. */
  ghost predicate FetchesOk(s: T.State) {
    forall t | 0 <= t < |s.pcs| && s.pcs[t].Fetch? :: |T.At(s.lists, T.Hand(t))| <= s.pcs[t].n
  }

  /** A step of thread t leaves the other threads and what they have in hand alone. */
  ghost predicate OnlyOwn(s: T.State, s': T.State, t: nat) {
    && t < |s.pcs| == |s'.pcs|
    && forall u: nat | u < |s.pcs| && u != t :: s'.pcs[u] == s.pcs[u] && T.At(s'.lists, T.Hand(u)) == T.At(s.lists, T.Hand(u))
  }

  ghost predicate OwnFetchOk(s: T.State, t: nat) {
    t < |s.pcs| && (s.pcs[t].Fetch? ==> |T.At(s.lists, T.Hand(t))| <= s.pcs[t].n)
  }

  /** What a step of thread t does to others, to its own fetching, and to what is out. */
  ghost predicate StepOk(s: T.State, s': T.State, t: nat, x: Exchange) {
    OnlyOwn(s, s', t) && OwnFetchOk(s', t) && forall c: nat :: Exchanged(x, c, Clients(s, c), Clients(s', c))
  }

  /** A step that moves no objects. */
  lemma ControlOk(s: T.State, s': T.State, t: nat)
    requires t < |s.pcs| == |s'.pcs| && s'.lists == s.lists && s'.places == s.places && s'.classOf == s.classOf && s'.pcs == s.pcs[t := s'.pcs[t]]
    requires OwnFetchOk(s', t)
    ensures StepOk(s, s', t, Nothing)
  {
  }

  /** A step that moves objects between lists. */
  lemma MoveOk(s: T.State, s': T.State, t: nat, a: T.Loc, n: int, b: T.Loc)
    requires t < |s.pcs| == |s'.pcs| && s'.classOf == s.classOf && s'.pcs == s.pcs[t := s'.pcs[t]] && OwnFetchOk(s', t)
    requires T.Partition(s.lists, s.places) && 0 <= n <= |T.At(s.lists, a)| && a != T.Client && b != T.Client
    requires (a.Hand? ==> a.t == t) && (b.Hand? ==> b.t == t)
    requires s'.lists == T.Shift(s.lists, a, n, b) && s'.places == T.Moved(s.places, T.At(s.lists, a)[..n], b)
    ensures StepOk(s, s', t, Nothing)
  {
    forall o | o in T.At(s.lists, a)[..n] ensures o in s.places && s.places[o] == a {
      assert o in T.At(s.lists, a);
    }
    forall c: nat ensures Clients(s', c) == Clients(s, c) {
      assert forall o :: o in Clients(s', c) <==> o in Clients(s, c);
    }
  }

  /** A step that hands out a list. */
  lemma HandOutOk(s: T.State, s': T.State, t: nat, a: T.Loc, c: ClassId, n: nat)
    requires t < |s.pcs| && s'.classOf == s.classOf && s'.pcs == s.pcs[t := T.Idle] && T.Partition(s.lists, s.places)
    requires a != T.Client && (a.Hand? ==> a.t == t) && |T.At(s.lists, a)| <= n
    requires forall o | o in T.At(s.lists, a) :: o.span in s.classOf && s.classOf[o.span] == c
    requires s'.lists == s.lists[a := []] && s'.places == T.Moved(s.places, T.At(s.lists, a), T.Client)
    ensures StepOk(s, s', t, Out(c, n, T.At(s.lists, a)))
  {
    var chain := T.At(s.lists, a);
    assert forall o | o in chain :: o in s.places && s.places[o] == a;
    forall d: nat ensures Exchanged(Out(c, n, chain), d, Clients(s, d), Clients(s', d)) {
      assert forall o :: o in Clients(s', d) <==> o in Clients(s, d) || (d == c && o in chain);
    }
  }

  /** A step that takes a chain in. */
  lemma TakeInOk(s: T.State, s': T.State, t: nat, c: ClassId, chain: seq<Obj>)
    requires t < |s.pcs| && s'.classOf == s.classOf && s'.pcs == s.pcs[t := T.Insert(c)] && T.Distinct(chain)
    requires forall o | o in chain :: o in s.places && s.places[o] == T.Client && o.span in s.classOf && s.classOf[o.span] == c
    requires s'.lists == s.lists[T.Hand(t) := chain] && s'.places == T.Moved(s.places, chain, T.Hand(t))
    ensures StepOk(s, s', t, In(c, chain))
  {
    forall d: nat ensures Exchanged(In(c, chain), d, Clients(s, d), Clients(s', d)) {
      assert forall o :: o in Clients(s', d) <==> o in Clients(s, d) && !(d == c && o in chain);
    }
  }

  /** A step that drops a span none of whose objects is out. */
  lemma RetireOk(s: T.State, s': T.State, t: nat, x: SpanPtr)
    requires t < |s.pcs| == |s'.pcs| && s'.pcs == s.pcs[t := s'.pcs[t]] && OwnFetchOk(s', t)
    requires s'.classOf == s.classOf - {x} && s'.places == map o | o in s.places && o.span != x :: s.places[o]
    requires forall o | o in s.places && o.span == x :: s.places[o] != T.Client
    requires forall u :: T.At(s'.lists, T.Hand(u)) == T.At(s.lists, T.Hand(u))
    ensures StepOk(s, s', t, Nothing)
  {
    forall c: nat ensures Clients(s', c) == Clients(s, c) {
      assert forall o :: o in Clients(s', c) <==> o in Clients(s, c);
    }
  }

  /** A step that adds a span, all of its objects free. */
  lemma AddOk(s: T.State, s': T.State, t: nat, x: SpanPtr, c: ClassId, q: seq<Obj>)
    requires t < |s.pcs| == |s'.pcs| && s'.pcs == s.pcs[t := s'.pcs[t]] && OwnFetchOk(s', t)
    requires s'.classOf == s.classOf[x := c] && s'.places == s.places + map o | o in q :: T.InSpan(x)
    requires (forall o | o in s.places :: o.span != x) && forall o | o in q :: o.span == x
    requires s'.lists == s.lists[T.InSpan(x) := q]
    ensures StepOk(s, s', t, Nothing)
  {
    forall d: nat ensures Clients(s', d) == Clients(s, d) {
      assert forall o :: o in Clients(s', d) <==> o in Clients(s, d);
    }
  }

  // ---- Step by step ----

  lemma GiveBackOk(s: T.State, t: nat, c: ClassId)
    requires T.Partition(s.lists, s.places) && t < |s.pcs|
    ensures StepOk(s, T.GiveBack(s, t, c), t, Nothing)
  {
    var chain := T.At(s.lists, T.Hand(t));
    assert chain[..|chain|] == chain;
    MoveOk(s, T.GiveBack(s, t, c), t, T.Hand(t), |chain|, T.Rest(t));
  }

  lemma StoreOk(s: T.State, s0: T.State, t: nat, c: ClassId)
    requires T.Partition(s.lists, s.places) && t < |s.pcs| && c < |s0.centrals|
    requires s0.lists == s.lists && s0.places == s.places && s0.classOf == s.classOf && s0.pcs == s.pcs
    ensures StepOk(s, T.Store(s0, t, c), t, Nothing)
  {
    var chain := T.At(s.lists, T.Hand(t));
    assert chain[..|chain|] == chain;
    MoveOk(s, T.Store(s0, t, c), t, T.Hand(t), |chain|, T.InSlot(c, s0.centrals[c].used));
  }

  lemma InsertingOk(g: T.Config, s: T.State, t: nat, c: ClassId)
    requires T.Partition(s.lists, s.places) && t < |s.pcs| && c < |s.centrals| && |g.batch| == |g.maxCache| == |s.centrals|
    ensures StepOk(s, T.DoInserting(g, s, t, c), t, Nothing)
  {
    hide StepOk, T.Partition, T.Store, T.GiveBack;
    StoreOk(s, s, t, c);
    GiveBackOk(s, t, c);
    ControlOk(s, T.Goto(s, t, T.Evict(c, false)), t);
  }

  lemma NoEvictOk(s: T.State, t: nat, c: ClassId, force: bool)
    requires T.Partition(s.lists, s.places) && t < |s.pcs|
    ensures StepOk(s, T.AfterNoEvict(s, t, c, force), t, Nothing)
  {
    hide StepOk, T.Partition, T.GiveBack;
    GiveBackOk(s, t, c);
    ControlOk(s, T.Goto(s, t, T.Evict(c, true)), t);
  }

  lemma StealOk(s: T.State, t: nat, c: ClassId, force: bool, v: ClassId)
    requires T.Partition(s.lists, s.places) && t < |s.pcs| && v < |s.centrals|
    ensures StepOk(s, T.DoSteal(s, t, c, force, v), t, Nothing)
  {
    hide StepOk, T.Partition, T.AfterNoEvict;
    NoEvictOk(s, t, c, force);
    ControlOk(s, T.Leave(s, t, T.ClassLock(c), T.Invert(c, v, force)), t);
  }

  lemma ShrinkOk(s: T.State, t: nat, c: ClassId, v: ClassId, force: bool)
    requires T.Partition(s.lists, s.places) && t < |s.pcs| && v < |s.centrals|
    ensures StepOk(s, T.DoShrink(s, t, c, v, force), t, Nothing)
  {
    hide StepOk, T.Partition;
    var f, s' := s.centrals[v], T.DoShrink(s, t, c, v, force);
    if f.cacheSize != 0 && f.used == f.cacheSize && force {
      var slot := T.InSlot(v, f.used - 1);
      var chain := T.At(s.lists, slot);
      assert chain[..|chain|] == chain;
      MoveOk(s, s', t, slot, |chain|, T.Rest(t));
    } else {
      ControlOk(s, s', t);
    }
  }

  lemma ResumedOk(g: T.Config, s: T.State, t: nat, c: ClassId, force: bool, won: bool)
    requires T.Partition(s.lists, s.places) && t < |s.pcs| && c < |s.centrals| == |g.maxCache|
    ensures StepOk(s, T.DoResumed(g, s, t, c, force, won), t, Nothing)
  {
    hide StepOk, T.Partition, T.Store, T.GiveBack, T.AfterNoEvict;
    var f := s.centrals[c];
    StoreOk(s, T.SetCentral(s, c, f.(cacheSize := f.cacheSize + 1)), t, c);
    GiveBackOk(s, t, c);
    NoEvictOk(s, t, c, force);
  }

  lemma ReleaseOk(g: T.Config, s: T.State, total: int, t: nat, l: ClassId, after: T.After)
    requires T.Inv(g, s, total) && t < |s.pcs| && s.pcs[t] == T.Release(l, after) && l < |s.centrals| == |g.capacity|
    requires T.At(s.lists, T.Rest(t)) != [] ==> T.At(s.lists, T.Rest(t))[0].span in s.refcount
    ensures StepOk(s, T.DoRelease(g, s, t, l, after), t, Nothing)
  {
    hide StepOk, T.Partition, T.Inv;
    T.Conserved(g, s, total);
    var rest, s' := T.At(s.lists, T.Rest(t)), T.DoRelease(g, s, t, l, after);
    if rest == [] {
      ControlOk(s, s', t);
    } else if s.refcount[rest[0].span] == 1 {
      T.NoneOut(g, s, total, t);
      T.RestKnown(g, s, total, t);
      RetireOk(s, s', t, rest[0].span);
    } else {
      MoveOk(s, s', t, T.Rest(t), 1, T.InSpan(rest[0].span));
    }
  }

  lemma RemovingOk(g: T.Config, s: T.State, total: int, t: nat, c: ClassId, n: nat)
    requires T.Inv(g, s, total) && t < |s.pcs| && s.pcs[t] == T.Removing(c, n) && c < |s.centrals| == |g.batch|
    ensures var slot := T.InSlot(c, s.centrals[c].used - 1);
            StepOk(s, T.DoRemoving(g, s, t, c, n), t,
                   if n == g.batch[c] && s.centrals[c].used > 0 then Out(c, n, T.At(s.lists, slot)) else Nothing)
  {
    hide StepOk, T.Partition, T.Inv;
    T.Conserved(g, s, total);
    T.CacheFacts(g, s, total, c);
    T.Empties(g, s, total, t);
    var s' := T.DoRemoving(g, s, t, c, n);
    if n == g.batch[c] && s.centrals[c].used > 0 {
      var slot := T.InSlot(c, s.centrals[c].used - 1);
      OfClass(g, s, total, slot);
      HandOutOk(s, s', t, slot, c, n);
    } else {
      ControlOk(s, s', t);
    }
  }

  /** What a slot or a hand holds is of its class. */
  lemma OfClass(g: T.Config, s: T.State, total: int, l: T.Loc)
    requires T.Inv(g, s, total) && (l.InSlot? || l.Hand?)
    ensures forall o | o in T.At(s.lists, l) ::
      o.span in s.classOf && (if l.InSlot? then s.classOf[o.span] == l.c else l.t < |s.pcs| && T.HandClass(s.pcs[l.t]) == s.classOf[o.span])
  {
    hide T.LocksOk, T.Partition, T.Carves, T.SlotsOk, T.CountsOk, T.AllListed, T.FlightsOk, T.CachesOk, T.FullOk, T.HandClass;
    forall o | o in T.At(s.lists, l)
      ensures o.span in s.classOf && (if l.InSlot? then s.classOf[o.span] == l.c else l.t < |s.pcs| && T.HandClass(s.pcs[l.t]) == s.classOf[o.span])
    {
      assert o in s.lists[l];
      assert T.Fits(s.classOf, s.pcs, l, o);
    }
  }

  lemma FetchOk(g: T.Config, s: T.State, total: int, t: nat, c: ClassId, n: nat, populated: bool)
    requires T.Inv(g, s, total) && t < |s.pcs| && s.pcs[t] == T.Fetch(c, n, populated) && c < |s.centrals|
    requires s.centrals[c].nonempty != [] ==> s.centrals[c].nonempty[0] in s.refcount
    requires |T.At(s.lists, T.Hand(t))| <= n
    ensures var got := T.At(s.lists, T.Hand(t));
            StepOk(s, T.DoFetch(s, t, c, n, populated), t,
                   if (|got| < n && s.centrals[c].nonempty != []) || (got == [] && !populated) then Nothing else Out(c, n, got))
  {
    hide StepOk, T.Partition, T.Inv;
    T.Conserved(g, s, total);
    var f, got, s' := s.centrals[c], T.At(s.lists, T.Hand(t)), T.DoFetch(s, t, c, n, populated);
    if |got| < n && f.nonempty != [] {
      var x := f.nonempty[0];
      var objs := T.At(s.lists, T.InSpan(x));
      MoveOk(s, s', t, T.InSpan(x), if n - |got| < |objs| then n - |got| else |objs|, T.Hand(t));
    } else if got == [] && !populated {
      ControlOk(s, s', t);
    } else {
      OfClass(g, s, total, T.Hand(t));
      HandOutOk(s, s', t, T.Hand(t), c, n);
    }
  }

  lemma PopulatingOk(g: T.Config, s: T.State, total: int, t: nat, c: ClassId, n: nat, x: SpanPtr)
    requires T.Inv(g, s, total) && t < |s.pcs| && s.pcs[t] == T.Populating(c, n, x) && c < |s.centrals| == |g.capacity|
    ensures StepOk(s, T.DoPopulating(g, s, t, c, n, x), t, Nothing)
  {
    hide StepOk, T.Partition, T.Inv, T.Carves;
    T.Conserved(g, s, total);
    T.Empties(g, s, total, t);
    var s' := T.DoPopulating(g, s, t, c, n, x);
    if x == NULL {
      ControlOk(s, s', t);
    } else {
      NewSpan(g, s, total, t, c, x);
      AddOk(s, s', t, x, c, T.Carved(x, g.capacity[c]));
    }
  }

  lemma NewSpan(g: T.Config, s: T.State, total: int, t: nat, c: ClassId, x: SpanPtr)
    requires T.Inv(g, s, total) && t < |s.pcs| && T.Flight(s.pcs[t]) == x != NULL && c < |g.capacity|
    ensures forall o | o in s.places :: o.span != x
  {
    hide T.LocksOk, T.Partition, T.SlotsOk, T.CountsOk, T.AllListed, T.CachesOk, T.FullOk, T.AllFit, T.Flight;
    T.NewCarves(g, s.classOf, s.places, x, c);
  }

  /** Every step of the central lists is, as far as the objects that are out go, one of the
      operations that thread caches rely on, or nothing; it fetches no more than was asked
      for. */
  lemma StepExchanges(g: T.Config, s: T.State, total: int, e: T.Event)
    requires T.Inv(g, s, total) && T.Sound(g, s) && T.Enabled(s, e) && FetchesOk(s)
    ensures FetchesOk(T.Apply(g, s, e)) && OnlyOwn(s, T.Apply(g, s, e), e.t)
    ensures forall c: nat :: Exchanged(ExchangeOf(g, s, e), c, Clients(s, c), Clients(T.Apply(g, s, e), c))
  {
    StepIsOk(g, s, total, e);
    hide T.Inv, T.Sound, T.Apply, ExchangeOf, T.Enabled;
    var s' := T.Apply(g, s, e);
    forall t | 0 <= t < |s'.pcs| ensures OwnFetchOk(s', t) {
      assert t != e.t ==> OwnFetchOk(s, t);
    }
  }

  lemma StepIsOk(g: T.Config, s: T.State, total: int, e: T.Event)
    requires T.Inv(g, s, total) && T.Sound(g, s) && T.Enabled(s, e) && FetchesOk(s)
    ensures StepOk(s, T.Apply(g, s, e), e.t, ExchangeOf(g, s, e))
  {
    hide T.Inv, StepOk, T.DoInserting, T.DoShrink, T.DoResumed, T.DoRelease, T.DoDropping, T.DoRemoving, T.DoFetch, T.DoPopulating, T.DoSteal, T.DoObtain, T.Partition;
    T.Conserved(g, s, total);
    var t := e.t;
    var p, s' := s.pcs[t], T.Apply(g, s, e);
    assert T.InRange(p, |s.centrals|);
    match e
    case CallInsert(_, c, chain) => TakeInOk(s, s', t, c, chain);
    case CallRemove(_, c, n) => ControlOk(s, s', t);
    case Take(_) => ControlOk(s, s', t);
    case Steal(_, v) => StealOk(s, t, p.c, p.force, v);
    case Obtain(_, x) => ObtainOk(s, t, p.c, p.n, x);
    case Work(_) =>
      match p {
        case Inserting(c) => InsertingOk(g, s, t, c);
        case Shrink(c, v, force) => ShrinkOk(s, t, c, v, force);
        case Resumed(c, force, won) => ResumedOk(g, s, t, c, force, won);
        case Release(l, after) => ReleaseOk(g, s, total, t, l, after);
        case Dropping(l, x, after) => DroppingOk(s, t, l, x, after);
        case Removing(c, n) => RemovingOk(g, s, total, t, c, n);
        case Fetch(c, n, populated) => FetchOk(g, s, total, t, c, n, populated);
        case Populating(c, n, x) => PopulatingOk(g, s, total, t, c, n, x);
        case _ =>
      }
  }

  lemma ObtainOk(s: T.State, t: nat, c: ClassId, n: nat, x: SpanPtr)
    requires t < |s.pcs|
    ensures StepOk(s, T.DoObtain(s, t, c, n, x), t, Nothing)
  {
    ControlOk(s, T.DoObtain(s, t, c, n, x), t);
  }

  lemma DroppingOk(s: T.State, t: nat, l: ClassId, x: SpanPtr, after: T.After)
    requires t < |s.pcs|
    ensures StepOk(s, T.DoDropping(s, t, l, x, after), t, Nothing)
  {
    ControlOk(s, T.DoDropping(s, t, l, x, after), t);
  }

  // ---- The central lists under the threads' caches ----

  /** The central lists, and the list of each class that each thread caches. */
  datatype Tower = Tower(s: T.State, cached: seq<seq<seq<Obj>>>)

  /** What can happen: a step of the central lists; a thread gives the application an
      object of its list, or takes one back; it hands in the front of a list; or it asks
      for objects of a class of which it has none. */
  datatype Move =
    | Step(e: T.Event)
    | Pop(t: nat, c: ClassId)
    | Push(t: nat, c: ClassId, o: Obj)
    | HandIn(t: nat, c: ClassId, n: nat)
    | Ask(t: nat, c: ClassId, n: nat)

  ghost predicate Cached(y: Tower, c: ClassId, o: Obj) {
    exists t :: 0 <= t < |y.cached| && c < |y.cached[t]| && o in y.cached[t][c]
  }

  /** The objects of a class that the application has. */
  ghost function App(y: Tower, c: ClassId): set<Obj> {
    set o | o in Clients(y.s, c) && !Cached(y, c, o)
  }

  function MoveEvent(y: Tower, m: Move): T.Event
    requires m.HandIn? ==> m.t < |y.cached| && m.c < |y.cached[m.t]| && m.n <= |y.cached[m.t][m.c]|
    requires !m.Pop? && !m.Push?
  {
    match m
    case Step(e) => e
    case HandIn(t, c, n) => T.CallInsert(t, c, y.cached[t][c][..n])
    case Ask(t, c, n) => T.CallRemove(t, c, n)
  }

  ghost predicate Possible(g: T.Config, y: Tower, m: Move) {
    && |y.cached| == |y.s.pcs| && (forall t | 0 <= t < |y.cached| :: |y.cached[t]| == |y.s.centrals|)
    && match m
       case Step(e) => T.Enabled(y.s, e) && !e.CallInsert? && !e.CallRemove?
       case Pop(t, c) => t < |y.cached| && c < |y.s.centrals| && y.s.pcs[t].Idle? && y.cached[t][c] != []
       case Push(t, c, o) => t < |y.cached| && c < |y.s.centrals| && y.s.pcs[t].Idle? && o in App(y, c)
       case HandIn(t, c, n) =>
         t < |y.cached| && c < |y.s.centrals| && 0 < n <= |y.cached[t][c]| && T.Enabled(y.s, MoveEvent(y, m))
       case Ask(t, c, n) => t < |y.cached| && c < |y.s.centrals| && y.cached[t][c] == [] && T.Enabled(y.s, MoveEvent(y, m))
  }

  function SetList(y: Tower, t: nat, c: ClassId, q: seq<Obj>): Tower
    requires t < |y.cached| && c < |y.cached[t]|
  {
    y.(cached := y.cached[t := y.cached[t][c := q]])
  }

  /** The state after a move. What the central lists hand out goes on the thread's list, but
      for the first object, which the application gets. */
  ghost function After(g: T.Config, y: Tower, m: Move): Tower
    requires T.Sound(g, y.s) && Possible(g, y, m)
  {
    match m
    case Step(e) =>
      (var y' := y.(s := T.Apply(g, y.s, e));
       match ExchangeOf(g, y.s, e)
       case Out(c, n, chain) =>
         if chain != [] && c < |y.cached[e.t]| then SetList(y', e.t, c, chain[1..] + y.cached[e.t][c]) else y'
       case _ => y')
    case Pop(t, c) => SetList(y, t, c, y.cached[t][c][1..])
    case Push(t, c, o) => SetList(y, t, c, [o] + y.cached[t][c])
    case HandIn(t, c, n) => SetList(y.(s := T.Apply(g, y.s, MoveEvent(y, m))), t, c, y.cached[t][c][n..])
    case Ask(_, _, _) => y.(s := T.Apply(g, y.s, MoveEvent(y, m)))
  }

  /** The lists of the threads hold objects that are out, each once. */
  ghost predicate CachesOk(out: ClassId -> set<Obj>, classes: nat, cached: seq<seq<seq<Obj>>>) {
    && (forall t | 0 <= t < |cached| :: |cached[t]| == classes)
    && (forall t, c | 0 <= t < |cached| && 0 <= c < classes :: T.Distinct(cached[t][c]))
    && (forall t, c, o | 0 <= t < |cached| && 0 <= c < classes && o in cached[t][c] :: o in out(c))
    && (forall t, u, c, o | 0 <= t < u < |cached| && 0 <= c < classes && o in cached[t][c] :: o !in cached[u][c])
  }

  ghost function OutOf(s: T.State): ClassId -> set<Obj> { (c: ClassId) => Clients(s, c) }

  ghost predicate Inv(g: T.Config, y: Tower, total: int) {
    T.Inv(g, y.s, total) && FetchesOk(y.s) && |y.cached| == |y.s.pcs| && CachesOk(OutOf(y.s), |y.s.centrals|, y.cached)
  }

  /** One list changes, and so does what is out of its class. */
  lemma OneList(out: ClassId -> set<Obj>, out': ClassId -> set<Obj>, classes: nat, cached: seq<seq<seq<Obj>>>, t: nat, c: ClassId, q: seq<Obj>)
    requires CachesOk(out, classes, cached) && t < |cached| && c < classes && T.Distinct(q)
    requires forall d: nat | d != c :: out'(d) == out(d)
    requires forall o | o in q :: o in out'(c) && (o in cached[t][c] || forall u | 0 <= u < |cached| :: o !in cached[u][c])
    requires forall u, o | 0 <= u < |cached| && u != t && o in cached[u][c] :: o in out'(c)
    ensures CachesOk(out', classes, cached[t := cached[t][c := q]])
  {
    hide T.Distinct;
    var cached' := cached[t := cached[t][c := q]];
    forall u, v, d, o | 0 <= u < v < |cached'| && 0 <= d < classes && o in cached'[u][d] ensures o !in cached'[v][d] {
      if d == c && u == t && o in cached[t][c] {
        assert o !in cached[v][c];
      } else if d == c && v == t {
        assert o in cached[u][c];
      } else if d != c || (u != t && v != t) {
        assert o in cached[u][d];
      }
    }
  }

  lemma NoList(out: ClassId -> set<Obj>, out': ClassId -> set<Obj>, classes: nat, cached: seq<seq<seq<Obj>>>)
    requires CachesOk(out, classes, cached) && forall d: nat :: out'(d) == out(d)
    ensures CachesOk(out', classes, cached)
  {
    hide T.Distinct;
  }

  /** What the central lists hand out joins a list. */
  lemma FetchedList(out: ClassId -> set<Obj>, out': ClassId -> set<Obj>, classes: nat, cached: seq<seq<seq<Obj>>>, t: nat, x: Exchange)
    requires CachesOk(out, classes, cached) && t < |cached| && x.Out? && x.c < classes && x.chain != []
    requires forall d: nat :: Exchanged(x, d, out(d), out'(d))
    ensures CachesOk(out', classes, cached[t := cached[t][x.c := x.chain[1..] + cached[t][x.c]]])
  {
    var c, chain := x.c, x.chain;
    assert Exchanged(x, c, out(c), out'(c));
    forall o | o in chain ensures o !in out(c) && o in out'(c) {
      assert o in Elements(chain);
    }
    assert forall o | o in chain[1..] :: o in chain;
    C.ElementsSplit(chain, 1);
    assert Elements(chain[1..]) !! Elements(cached[t][c]);
    C.ElementsJoin(chain[1..], cached[t][c]);
    OneList(out, out', classes, cached, t, c, chain[1..] + cached[t][c]);
  }

  /** The front of a list is handed in. */
  lemma HandedInList(out: ClassId -> set<Obj>, out': ClassId -> set<Obj>, classes: nat, cached: seq<seq<seq<Obj>>>, t: nat, c: ClassId, n: nat)
    requires CachesOk(out, classes, cached) && t < |cached| && c < classes && n <= |cached[t][c]|
    requires forall d: nat :: Exchanged(In(c, cached[t][c][..n]), d, out(d), out'(d))
    ensures CachesOk(out', classes, cached[t := cached[t][c := cached[t][c][n..]]])
  {
    var q := cached[t][c];
    assert Exchanged(In(c, q[..n]), c, out(c), out'(c));
    C.ElementsSplit(q, n);
    forall o | o in q[n..] ensures o in out'(c) && o in q {
      assert o in Elements(q[n..]) && o in q;
    }
    forall u, o | 0 <= u < |cached| && u != t && o in cached[u][c] ensures o in out'(c) {
      assert o !in q;
      assert forall x | x in q[..n] :: x in q;
    }
    OneList(out, out', classes, cached, t, c, q[n..]);
  }

  /** Every move keeps everything in order. */
  lemma MoveKeeps(g: T.Config, y: Tower, total: int, m: Move)
    requires Inv(g, y, total) && Possible(g, y, m)
    ensures T.Sound(g, y.s) && Inv(g, After(g, y, m), total)
  {
    hide T.Inv, T.Sound, T.Apply, T.Enabled, FetchesOk, CachesOk, ExchangeOf, Exchanged, App;
    T.InvSound(g, y.s, total);
    if m.Pop? {
      PopKeeps(y, m.t, m.c);
    } else if m.Push? {
      PushKeeps(y, m.t, m.c, m.o);
    } else {
      EventKeeps(g, y, total, m);
    }
  }

  lemma PopKeeps(y: Tower, t: nat, c: ClassId)
    requires CachesOk(OutOf(y.s), |y.s.centrals|, y.cached) && t < |y.cached| && c < |y.s.centrals| == |y.cached[t]| && y.cached[t][c] != []
    ensures CachesOk(OutOf(y.s), |y.s.centrals|, SetList(y, t, c, y.cached[t][c][1..]).cached)
  {
    C.ElementsSplit(y.cached[t][c], 1);
    OneList(OutOf(y.s), OutOf(y.s), |y.s.centrals|, y.cached, t, c, y.cached[t][c][1..]);
  }

  lemma PushKeeps(y: Tower, t: nat, c: ClassId, o: Obj)
    requires CachesOk(OutOf(y.s), |y.s.centrals|, y.cached) && t < |y.cached| && c < |y.s.centrals| == |y.cached[t]| && o in App(y, c)
    ensures CachesOk(OutOf(y.s), |y.s.centrals|, SetList(y, t, c, [o] + y.cached[t][c]).cached)
  {
    assert forall u | 0 <= u < |y.cached| :: o !in y.cached[u][c];
    assert Elements([o]) == {o};
    C.ElementsJoin([o], y.cached[t][c]);
    OneList(OutOf(y.s), OutOf(y.s), |y.s.centrals|, y.cached, t, c, [o] + y.cached[t][c]);
  }

  lemma EventKeeps(g: T.Config, y: Tower, total: int, m: Move)
    requires Inv(g, y, total) && T.Sound(g, y.s) && Possible(g, y, m) && !m.Pop? && !m.Push?
    ensures Inv(g, After(g, y, m), total)
  {
    hide T.Inv, T.Sound, T.Apply, T.Enabled, FetchesOk, CachesOk, ExchangeOf, Exchanged, App, OnlyOwn;
    var e := MoveEvent(y, m);
    var s' := T.Apply(g, y.s, e);
    T.StepKeeps(g, y.s, total, e);
    StepExchanges(g, y.s, total, e);
    SameSizes(g, y.s, s', total, e.t);
    WhichExchange(g, y.s, e);
    var x := ExchangeOf(g, y.s, e);
    match m
    case HandIn(t, c, n) => HandedInList(OutOf(y.s), OutOf(s'), |y.s.centrals|, y.cached, t, c, n);
    case Ask(_, _, _) => NothingOut(y, s', x);
    case Step(_) =>
      if x.Out? && x.chain != [] {
        FetchedList(OutOf(y.s), OutOf(s'), |y.s.centrals|, y.cached, e.t, x);
      } else {
        NothingOut(y, s', x);
      }
  }

  lemma NothingOut(y: Tower, s': T.State, x: Exchange)
    requires CachesOk(OutOf(y.s), |y.s.centrals|, y.cached) && (x == Nothing || (x.Out? && x.chain == []))
    requires forall c: nat :: Exchanged(x, c, Clients(y.s, c), Clients(s', c))
    ensures CachesOk(OutOf(s'), |y.s.centrals|, y.cached)
  {
    hide CachesOk;
    forall d: nat ensures OutOf(s')(d) == OutOf(y.s)(d) {
      assert Exchanged(x, d, Clients(y.s, d), Clients(s', d));
    }
    NoList(OutOf(y.s), OutOf(s'), |y.s.centrals|, y.cached);
  }

  lemma SameSizes(g: T.Config, s: T.State, s': T.State, total: int, t: nat)
    requires T.Inv(g, s, total) && T.Inv(g, s', total) && OnlyOwn(s, s', t)
    ensures |s'.centrals| == |s.centrals| && |s'.pcs| == |s.pcs|
  {
    hide T.Inv;
    T.Shapes(g, s, total);
    T.Shapes(g, s', total);
  }

  lemma WhichExchange(g: T.Config, s: T.State, e: T.Event)
    requires T.Sound(g, s) && T.Enabled(s, e)
    ensures var x := ExchangeOf(g, s, e);
      && e.t < |s.pcs| && (x.In? <==> e.CallInsert?) && (e.CallInsert? ==> x == In(e.c, e.chain)) && (e.CallRemove? ==> x == Nothing)
      && (x.Out? ==> x.c < |s.centrals|)
  {
    assert T.InRange(s.pcs[e.t], |s.centrals|);
  }

  // ---- What the application has ----

  /** The objects of class c that a move gives the application, and those it takes back. */
  ghost function Gains(g: T.Config, y: Tower, m: Move, c: ClassId): set<Obj>
    requires T.Sound(g, y.s) && Possible(g, y, m)
  {
    match m
    case Pop(t, d) => if d == c then {y.cached[t][d][0]} else {}
    case Step(e) =>
      (match ExchangeOf(g, y.s, e)
       case Out(d, n, chain) => if d == c && chain != [] then {chain[0]} else {}
       case _ => {})
    case _ => {}
  }

  ghost function Losses(m: Move, c: ClassId): set<Obj> {
    if m.Push? && m.c == c then {m.o} else {}
  }

  /** The application gets only objects that it does not have, and loses only those it
      gives back: no object is handed out twice. */
  lemma NeverTwice(g: T.Config, y: Tower, total: int, m: Move, c: ClassId)
    requires Inv(g, y, total) && Possible(g, y, m) && c < |y.s.centrals|
    ensures T.Sound(g, y.s) && Gains(g, y, m, c) !! App(y, c)
    ensures App(After(g, y, m), c) == App(y, c) + Gains(g, y, m, c) - Losses(m, c)
  {
    hide T.Inv, T.Sound, T.Apply, T.Enabled, FetchesOk, ExchangeOf, Exchanged, CachesOk;
    T.InvSound(g, y.s, total);
    if m.Pop? {
      PopApp(y, m.t, m.c, c);
    } else if m.Push? {
      PushApp(y, m.t, m.c, m.o, c);
    } else {
      var e := MoveEvent(y, m);
      StepExchanges(g, y.s, total, e);
      WhichExchange(g, y.s, e);
      var x, s' := ExchangeOf(g, y.s, e), T.Apply(g, y.s, e);
      assert Exchanged(x, c, Clients(y.s, c), Clients(s', c));
      match m
      case HandIn(t, d, n) => HandInApp(y, s', t, d, n, c);
      case Ask(_, _, _) => SameApp(y, s', x, c);
      case Step(_) =>
        if x.Out? && x.chain != [] {
          FetchedApp(y, s', e.t, x, c);
        } else {
          SameApp(y, s', x, c);
        }
    }
  }

  lemma PopApp(y: Tower, t: nat, d: ClassId, c: ClassId)
    requires CachesOk(OutOf(y.s), |y.s.centrals|, y.cached) && t < |y.cached| && c < |y.s.centrals|
    requires d < |y.s.centrals| == |y.cached[t]| && y.cached[t][d] != []
    ensures var o, y' := y.cached[t][d][0], SetList(y, t, d, y.cached[t][d][1..]);
            && (d == c ==> o !in App(y, c)) && App(y', c) == App(y, c) + (if d == c then {o} else {})
  {
    var q, y' := y.cached[t][d], SetList(y, t, d, y.cached[t][d][1..]);
    C.ElementsSplit(q, 1);
    assert q == [q[0]] + q[1..];
    assert q[0] in Elements(q[..1]) && q[0] !in Elements(q[1..]);
    assert Cached(y, d, q[0]);
    CachedOut(y, d, q[0]);
    forall o ensures Cached(y', c, o) <==> Cached(y, c, o) && !(d == c && o == q[0]) {
      ListChange(y, t, d, q[1..], c, o);
    }
    assert forall o :: o in App(y', c) <==> o in App(y, c) || (d == c && o == q[0]);
  }

  /** Whether an object is cached after one list changed. */
  lemma ListChange(y: Tower, t: nat, d: ClassId, q: seq<Obj>, c: ClassId, o: Obj)
    requires CachesOk(OutOf(y.s), |y.s.centrals|, y.cached) && t < |y.cached| && d < |y.s.centrals| == |y.cached[t]| && c < |y.s.centrals|
    ensures var y' := SetList(y, t, d, q);
            if d != c then Cached(y', c, o) <==> Cached(y, c, o)
            else Cached(y', c, o) <==> o in q || (Cached(y, c, o) && o !in y.cached[t][c])
  {
    var y' := SetList(y, t, d, q);
    if Cached(y, c, o) {
      var u :| 0 <= u < |y.cached| && c < |y.cached[u]| && o in y.cached[u][c];
      assert u != t || d != c ==> o in y'.cached[u][c];
    }
    if Cached(y', c, o) {
      var u :| 0 <= u < |y'.cached| && c < |y'.cached[u]| && o in y'.cached[u][c];
      assert u != t || d != c ==> o in y.cached[u][c];
    }
    assert d == c && o in q ==> o in y'.cached[t][c];
  }

  lemma PushApp(y: Tower, t: nat, d: ClassId, p: Obj, c: ClassId)
    requires CachesOk(OutOf(y.s), |y.s.centrals|, y.cached) && t < |y.cached| && c < |y.s.centrals|
    requires d < |y.s.centrals| == |y.cached[t]| && p in App(y, d)
    ensures App(SetList(y, t, d, [p] + y.cached[t][d]), c) == App(y, c) - (if d == c then {p} else {})
  {
    var q := [p] + y.cached[t][d];
    forall o ensures Cached(SetList(y, t, d, q), c, o) <==> Cached(y, c, o) || (d == c && o == p) {
      ListChange(y, t, d, q, c, o);
      assert o in y.cached[t][d] ==> Cached(y, d, o);
    }
  }

  lemma HandInApp(y: Tower, s': T.State, t: nat, d: ClassId, n: nat, c: ClassId)
    requires CachesOk(OutOf(y.s), |y.s.centrals|, y.cached) && t < |y.cached| && c < |y.s.centrals|
    requires d < |y.s.centrals| == |y.cached[t]| && n <= |y.cached[t][d]|
    requires Exchanged(In(d, y.cached[t][d][..n]), c, Clients(y.s, c), Clients(s', c))
    ensures App(SetList(y.(s := s'), t, d, y.cached[t][d][n..]), c) == App(y, c)
  {
    var q := y.cached[t][d];
    var y' := SetList(y.(s := s'), t, d, q[n..]);
    C.ElementsSplit(q, n);
    forall o ensures o in App(y', c) <==> o in App(y, c) {
      assert o in q ==> Cached(y, d, o);
      assert o in q[..n] <==> o in Elements(q[..n]);
      assert o in q[n..] <==> o in Elements(q[n..]);
      assert o in q <==> o in Elements(q);
      ListChange(y, t, d, q[n..], c, o);
      assert Cached(y', c, o) <==> Cached(SetList(y, t, d, q[n..]), c, o);
    }
  }

  lemma SameApp(y: Tower, s': T.State, x: Exchange, c: ClassId)
    requires (x == Nothing || (x.Out? && x.chain == [])) && Exchanged(x, c, Clients(y.s, c), Clients(s', c))
    ensures App(y.(s := s'), c) == App(y, c)
  {
    forall o ensures Cached(y.(s := s'), c, o) <==> Cached(y, c, o) {}
  }

  lemma FetchedApp(y: Tower, s': T.State, t: nat, x: Exchange, c: ClassId)
    requires CachesOk(OutOf(y.s), |y.s.centrals|, y.cached) && t < |y.cached| && c < |y.s.centrals|
    requires x.Out? && x.chain != [] && x.c < |y.s.centrals| == |y.cached[t]|
    requires Exchanged(x, c, Clients(y.s, c), Clients(s', c))
    ensures var y' := SetList(y.(s := s'), t, x.c, x.chain[1..] + y.cached[t][x.c]);
            && (x.c == c ==> x.chain[0] !in App(y, c))
            && App(y', c) == App(y, c) + (if x.c == c then {x.chain[0]} else {})
  {
    var d, chain := x.c, x.chain;
    var q := chain[1..] + y.cached[t][d];
    var y' := SetList(y.(s := s'), t, d, q);
    if d == c {
      C.ElementsSplit(chain, 1);
      assert chain == [chain[0]] + chain[1..];
      assert chain[0] in Elements(chain);
    }
    forall o ensures o in App(y', c) <==> o in App(y, c) || (d == c && o == chain[0]) {
      ListChange(y, t, d, q, c, o);
      assert Cached(y', c, o) <==> Cached(SetList(y, t, d, q), c, o);
      assert o in chain <==> o in Elements(chain);
      assert o in chain[1..] <==> o in Elements(chain[1..]);
      assert o in chain[..1] <==> o in Elements(chain[..1]);
      assert o in y.cached[t][d] ==> Cached(y, d, o);
      if Cached(y, c, o) {
        CachedOut(y, c, o);
      }
    }
  }

  lemma CachedOut(y: Tower, c: ClassId, o: Obj)
    requires CachesOk(OutOf(y.s), |y.s.centrals|, y.cached) && c < |y.s.centrals| && Cached(y, c, o)
    ensures o in Clients(y.s, c)
  {
    assert OutOf(y.s)(c) == Clients(y.s, c);
  }

  // ---- Runs ----

  /** No spans, empty caches, and all threads idle. */
  function StartTower(g: T.Config, threads: nat): Tower {
    Tower(T.Start(g, threads), seq(threads, t => seq(|g.maxCache|, c => [])))
  }

  ghost predicate Runs(g: T.Config, y: Tower, ms: seq<Move>, y': Tower)
    decreases |ms|
  {
    if ms == [] then y' == y
    else T.Sound(g, y.s) && Possible(g, y, ms[0]) && Runs(g, After(g, y, ms[0]), ms[1..], y')
  }

  lemma StartKeeps(g: T.Config, threads: nat)
    requires T.ConfigOk(g)
    ensures Inv(g, StartTower(g, threads), T.SumCache(T.Start(g, threads).centrals))
  {
    hide T.Inv;
    T.StartInv(g, threads);
  }

  lemma {:induction false} RunKeeps(g: T.Config, y: Tower, total: int, ms: seq<Move>, y': Tower)
    requires Inv(g, y, total) && Runs(g, y, ms, y')
    ensures Inv(g, y', total)
    decreases |ms|
  {
    hide Inv, After, Possible, T.Sound;
    if ms != [] {
      MoveKeeps(g, y, total, ms[0]);
      RunKeeps(g, After(g, y, ms[0]), total, ms[1..], y');
    }
  }

  /** Conservation over all tiers: in every run of any number of threads every object of
      every live span is in exactly one place. It is on one list of a span, a slot or a
      chain, once; or on one list of one thread, once; or else the application has it. */
  lemma OnePlaceOverall(g: T.Config, threads: nat, ms: seq<Move>, y: Tower, o: Obj)
    requires T.ConfigOk(g) && Runs(g, StartTower(g, threads), ms, y) && o in y.s.places
    ensures o.span in y.s.classOf && y.s.classOf[o.span] < |y.s.centrals|
    ensures var c, l := y.s.classOf[o.span], y.s.places[o];
      && (l != T.Client <==> !Cached(y, c, o) && o !in App(y, c))
      && !(Cached(y, c, o) && o in App(y, c))
      && (l != T.Client ==> o in T.At(y.s.lists, l) && T.Distinct(T.At(y.s.lists, l)))
      && (forall k | k in y.s.lists && o in y.s.lists[k] :: k == l)
    ensures forall t, c | 0 <= t < |y.cached| && 0 <= c < |y.cached[t]| && o in y.cached[t][c] ::
      c == y.s.classOf[o.span] && T.Distinct(y.cached[t][c]) && forall u | 0 <= u < |y.cached| && c < |y.cached[u]| && o in y.cached[u][c] :: u == t
  {
    hide Runs, T.Inv, T.Partition, T.Carves, CachesOk, OutOf;
    var total := T.SumCache(T.Start(g, threads).centrals);
    StartKeeps(g, threads);
    RunKeeps(g, StartTower(g, threads), total, ms, y);
    T.Conserved(g, y.s, total);
    T.Shapes(g, y.s, total);
    PlaceKnown(g, y.s, o);
    var c := y.s.classOf[o.span];
    if Cached(y, c, o) {
      CachedOut(y, c, o);
    }
    forall t, d | 0 <= t < |y.cached| && 0 <= d < |y.cached[t]| && o in y.cached[t][d]
      ensures d == c && T.Distinct(y.cached[t][d]) && forall u | 0 <= u < |y.cached| && d < |y.cached[u]| && o in y.cached[u][d] :: u == t
    {
      CachedClass(y, t, d, o);
    }
  }

  lemma CachedClass(y: Tower, t: nat, c: nat, o: Obj)
    requires CachesOk(OutOf(y.s), |y.s.centrals|, y.cached) && t < |y.cached| && c < |y.cached[t]| && o in y.cached[t][c]
    ensures o in Clients(y.s, c) && T.Distinct(y.cached[t][c])
    ensures forall u | 0 <= u < |y.cached| && c < |y.cached[u]| && o in y.cached[u][c] :: u == t
  {
    assert OutOf(y.s)(c) == Clients(y.s, c);
  }

  lemma PlaceKnown(g: T.Config, s: T.State, o: Obj)
    requires T.Partition(s.lists, s.places) && T.Carves(g, s.classOf, s.places) && o in s.places
    ensures o.span in s.classOf && s.classOf[o.span] < |g.capacity|
    ensures s.places[o] != T.Client ==> o in T.At(s.lists, s.places[o]) && T.Distinct(T.At(s.lists, s.places[o]))
    ensures forall k | k in s.lists && o in s.lists[k] :: k == s.places[o]
  {
  }
}
