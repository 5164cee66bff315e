/** The central free lists and their transfer caches, shared by all threads: what is done
    under one lock is one step, and the steps of different threads interleave. */
module Tiers {
  import opened PageSpace

  type Thread = nat
  type ClassId = nat

  /** An object of a span, by its place in it. */
  datatype Obj = Obj(span: SpanPtr, index: nat)

  /** Where an object of a live span is: free in its span, in a slot of a transfer cache,
      in the chain a thread is inserting or has fetched, in the chain a thread is giving
      back to spans, or with the clients. */
  datatype Loc = InSpan(s: SpanPtr) | InSlot(c: ClassId, i: int) | Hand(t: Thread) | Rest(t: Thread) | Client

  type Lists = map<Loc, seq<Obj>>
  type Places = map<Obj, Loc>

  // ---- Objects and places ----

  function At(lists: Lists, l: Loc): seq<Obj> { if l in lists then lists[l] else [] }

  ghost predicate Distinct(q: seq<Obj>) { forall i, j | 0 <= i < j < |q| :: q[i] != q[j] }

  /** Every object is on the list of its place, once, and on no other. */
  ghost predicate Partition(lists: Lists, places: Places) {
    && Client !in lists
    && (forall l | l in lists :: Distinct(lists[l]))
    && (forall l, o | l in lists && o in lists[l] :: o in places && places[o] == l)
    && (forall o | o in places && places[o] != Client :: o in At(lists, places[o]))
  }

  function Moved(places: Places, objs: seq<Obj>, l: Loc): Places {
    map o | o in places :: if o in objs then l else places[o]
  }

  /** The first n objects of list a put before those of list b. */
  function Shift(lists: Lists, a: Loc, n: int, b: Loc): Lists
    requires 0 <= n <= |At(lists, a)|
  {
    lists[a := At(lists, a)[n..]][b := At(lists, a)[..n] + At(lists, b)]
  }

  lemma DistinctParts(x: seq<Obj>, n: int, y: seq<Obj>)
    requires Distinct(x) && Distinct(y) && 0 <= n <= |x| && forall o | o in x :: o !in y
    ensures Distinct(x[..n] + y) && Distinct(x[n..])
    ensures forall o | o in x :: (o in x[..n]) != (o in x[n..])
  {
    forall i, j | 0 <= i < j < |x[..n] + y| ensures (x[..n] + y)[i] != (x[..n] + y)[j] {
      if i < n <= j {
        assert x[i] in x && y[j - n] in y;
      }
    }
    forall o | o in x ensures (o in x[..n]) != (o in x[n..]) {
      var k :| 0 <= k < |x| && x[k] == o;
      if k < n {
        assert x[..n][k] == o;
      } else {
        assert x[n..][k - n] == o;
      }
    }
  }

  lemma ShiftPartition(lists: Lists, places: Places, a: Loc, n: int, b: Loc)
    requires Partition(lists, places) && 0 <= n <= |At(lists, a)| && a != b && a != Client && b != Client
    ensures Partition(Shift(lists, a, n, b), Moved(places, At(lists, a)[..n], b))
  {
    var x, y := At(lists, a), At(lists, b);
    var lists', places' := Shift(lists, a, n, b), Moved(places, x[..n], b);
    forall o | o in x ensures o !in y {
      assert places[o] == a;
    }
    DistinctParts(x, n, y);
    forall l, o | l in lists' && o in lists'[l] ensures o in places' && places'[o] == l {
      if l == a {
        assert o in x;
      } else if l == b {
        assert o in x || o in y;
      }
    }
    forall o | o in places' && places'[o] != Client ensures o in At(lists', places'[o]) {
      if places[o] == a && o !in x[..n] {
        assert o in x;
        assert o in x[n..];
      }
    }
  }

  /** Clients hand in a chain, or take a whole list. */
  lemma TakeInPartition(lists: Lists, places: Places, chain: seq<Obj>, l: Loc)
    requires Partition(lists, places) && l != Client && At(lists, l) == [] && Distinct(chain)
    requires forall o | o in chain :: o in places && places[o] == Client
    ensures Partition(lists[l := chain], Moved(places, chain, l))
  {
  }

  lemma HandOutPartition(lists: Lists, places: Places, l: Loc)
    requires Partition(lists, places) && l != Client
    ensures Partition(lists[l := []], Moved(places, At(lists, l), Client))
  {
  }

  // ---- Spans ----

  /** The objects carved from a span. */
  function Carved(s: SpanPtr, n: nat): (q: seq<Obj>)
    ensures |q| == n && forall i | 0 <= i < n :: q[i] == Obj(s, i)
  {
    seq(n, i requires 0 <= i => Obj(s, i))
  }

  /** Adding a new span, all of its objects free. */
  lemma CarvePartition(lists: Lists, places: Places, s: SpanPtr, n: nat)
    requires Partition(lists, places) && At(lists, InSpan(s)) == [] && forall o | o in places :: o.span != s
    ensures Partition(lists[InSpan(s) := Carved(s, n)], places + map o | o in Carved(s, n) :: InSpan(s))
  {
  }

  /** Dropping a span whose objects are all free, but for the first of list a. */
  lemma RetirePartition(lists: Lists, places: Places, s: SpanPtr, a: Loc)
    requires Partition(lists, places) && a != Client && a != InSpan(s) && At(lists, a) != []
    requires forall o | o in places && o.span == s :: o == At(lists, a)[0] || places[o] == InSpan(s)
    requires forall o | o in At(lists, InSpan(s)) :: o.span == s
    requires At(lists, a)[0].span == s
    ensures Partition(lists[InSpan(s) := []][a := At(lists, a)[1..]], map o | o in places && o.span != s :: places[o])
  {
    var x := At(lists, a);
    DistinctParts(x, 1, []);
    assert x[..1] + [] == x[..1];
    var lists', places' := lists[InSpan(s) := []][a := x[1..]], map o | o in places && o.span != s :: places[o];
    assert x[0] in x && x[0] in x[..1] && places[x[0]] == a;
    hide Distinct;
    forall l, o | l in lists' && o in lists'[l] ensures o in places' && places'[o] == l {
      StaysListed(lists, places, s, a, l, o);
    }
    forall o | o in places' && places'[o] != Client ensures o in At(lists', places'[o]) {
      if places[o] == a {
        assert o in x && o != x[0];
        assert o !in x[..1];
      }
    }
  }

  lemma StaysListed(lists: Lists, places: Places, s: SpanPtr, a: Loc, l: Loc, o: Obj)
    requires Partition(lists, places) && a != Client && a != InSpan(s) && At(lists, a) != [] && At(lists, a)[0].span == s
    requires forall o | o in places && o.span == s :: o == At(lists, a)[0] || places[o] == InSpan(s)
    requires l != InSpan(s) && o in (if l == a then At(lists, a)[1..] else At(lists, l))
    ensures o in places && o.span != s && places[o] == l
  {
    var x := At(lists, a);
    assert o in At(lists, l);
    assert l == a ==> o != x[0];
  }

  /** A span with as many free objects as it was carved into, less one, has all of its
      other objects free. */
  lemma LastObject(free: seq<Obj>, s: SpanPtr, n: nat, o: Obj)
    requires Distinct(free) && |free| == n - 1 && o.span == s && o.index < n && o !in free
    requires forall x | x in free :: x.span == s && x.index < n
    ensures forall x: Obj | x.span == s && x.index < n && x != o :: x in free
  {
    var all := set i: nat | i < n :: Obj(s, i);
    CarvedSize(s, n);
    var have := set x | x in free;
    DistinctSize(free);
    forall x: Obj | x.span == s && x.index < n && x != o ensures x in free {
      if x !in free {
        assert have + {o} + {x} <= all;
        assert |have + {o} + {x}| == n + 1;
        SubsetSize(have + {o} + {x}, all);
        assert false;
      }
    }
  }

  lemma {:induction false} CarvedSize(s: SpanPtr, n: nat)
    ensures |set i: nat | i < n :: Obj(s, i)| == n
  {
    if n > 0 {
      CarvedSize(s, n - 1);
      assert (set i: nat | i < n :: Obj(s, i)) == (set i: nat | i < n - 1 :: Obj(s, i)) + {Obj(s, n - 1)};
    } else {
      assert (set i: nat | i < n :: Obj(s, i)) == {};
    }
  }

  lemma {:induction false} DistinctSize(q: seq<Obj>)
    requires Distinct(q)
    ensures |set x | x in q| == |q|
  {
    if q != [] {
      DistinctSize(q[1..]);
      assert q == [q[0]] + q[1..];
      assert (set x | x in q) == {q[0]} + (set x | x in q[1..]);
    } else {
      assert (set x | x in q) == {};
    }
  }

  // ---- The machine ----

  datatype Lock = ClassLock(c: ClassId) | HeapLock

  /** What a thread does once it has given back the chain of a victim's slot. */
  datatype After = Finish | Resume(c: ClassId)

  /** Where a thread is. The states that wait for a lock hold none. */
  datatype PC =
    | Idle
    | Insert(c: ClassId)
    | Inserting(c: ClassId)
    | Evict(c: ClassId, force: bool)
    | Invert(c: ClassId, v: ClassId, force: bool)
    | Shrink(c: ClassId, v: ClassId, force: bool)
    | Back(c: ClassId, force: bool, won: bool)
    | Resumed(c: ClassId, force: bool, won: bool)
    | Release(l: ClassId, after: After)
    | Drop(l: ClassId, s: SpanPtr, after: After)
    | Dropping(l: ClassId, s: SpanPtr, after: After)
    | Return(l: ClassId, after: After)
    | Remove(c: ClassId, n: nat)
    | Removing(c: ClassId, n: nat)
    | Fetch(c: ClassId, n: nat, populated: bool)
    | Grow(c: ClassId, n: nat)
    | Growing(c: ClassId, n: nat)
    | Grown(c: ClassId, n: nat, s: SpanPtr)
    | Populating(c: ClassId, n: nat, s: SpanPtr)

  /** The locks a thread holds in each state. */
  function Held(p: PC): set<Lock> {
    match p
    case Inserting(c) => {ClassLock(c)}
    case Evict(c, _) => {ClassLock(c)}
    case Shrink(_, v, _) => {ClassLock(v)}
    case Resumed(c, _, _) => {ClassLock(c)}
    case Removing(c, _) => {ClassLock(c)}
    case Populating(c, _, _) => {ClassLock(c)}
    case Release(l, _) => {ClassLock(l)}
    case Fetch(c, _, _) => {ClassLock(c)}
    case Dropping(_, _, _) => {HeapLock}
    case Growing(_, _) => {HeapLock}
    case _ => {}
  }

  /** Does the state wait for a lock? Which one, and what comes once it is taken? */
  predicate Waits(p: PC) {
    p.Insert? || p.Invert? || p.Back? || p.Drop? || p.Return? || p.Remove? || p.Grow? || p.Grown?
  }

  function Wanted(p: PC): Lock
    requires Waits(p)
  {
    match p
    case Insert(c) => ClassLock(c)
    case Invert(_, v, _) => ClassLock(v)
    case Back(c, _, _) => ClassLock(c)
    case Return(l, _) => ClassLock(l)
    case Remove(c, _) => ClassLock(c)
    case Grown(c, _, _) => ClassLock(c)
    case _ => HeapLock
  }

  function Entered(p: PC): PC
    requires Waits(p)
  {
    match p
    case Insert(c) => Inserting(c)
    case Invert(c, v, force) => Shrink(c, v, force)
    case Back(c, force, won) => Resumed(c, force, won)
    case Drop(l, s, after) => Dropping(l, s, after)
    case Return(l, after) => Release(l, after)
    case Remove(c, n) => Removing(c, n)
    case Grow(c, n) => Growing(c, n)
    case Grown(c, n, s) => Populating(c, n, s)
  }

  // ---- What a thread has in its hands ----

  /** The class of the chain in a thread's hand, -1 if there is none. */
  function HandClass(p: PC): int {
    match p
    case Insert(c) => c
    case Inserting(c) => c
    case Evict(c, _) => c
    case Invert(c, _, _) => c
    case Shrink(c, _, _) => c
    case Back(c, _, _) => c
    case Resumed(c, _, _) => c
    case Release(_, after) => AfterClass(after)
    case Drop(_, _, after) => AfterClass(after)
    case Dropping(_, _, after) => AfterClass(after)
    case Return(_, after) => AfterClass(after)
    case Fetch(c, _, _) => c
    case _ => -1
  }

  function AfterClass(a: After): int { if a.Resume? then a.c else -1 }

  /** The class of the chain a thread is giving back, -1 if there is none. */
  function RestClass(p: PC): int {
    match p
    case Release(l, _) => l
    case Drop(l, _, _) => l
    case Dropping(l, _, _) => l
    case Return(l, _) => l
    case _ => -1
  }

  /** A span a thread has got from the page heap or is about to return to it. */
  function Flight(p: PC): SpanPtr {
    match p
    case Drop(_, s, _) => s
    case Dropping(_, s, _) => s
    case Grown(_, _, s) => s
    case Populating(_, _, s) => s
    case _ => NULL
  }

  /** A slot taken from a victim and not yet added to another class. */
  function Credit(p: PC): int {
    match p
    case Back(_, _, won) => if won then 1 else 0
    case Resumed(_, _, won) => if won then 1 else 0
    case Release(_, after) => if after.Resume? then 1 else 0
    case Drop(_, _, after) => if after.Resume? then 1 else 0
    case Dropping(_, _, after) => if after.Resume? then 1 else 0
    case Return(_, after) => if after.Resume? then 1 else 0
    case _ => 0
  }

  /** Is the chain in hand a full batch? It is while a slot is sought for it. */
  predicate Full(p: PC) {
    match p
    case Evict(_, _) => true
    case Invert(_, _, _) => true
    case Shrink(_, _, _) => true
    case Back(_, _, _) => true
    case Resumed(_, _, _) => true
    case Release(_, after) => after.Resume?
    case Drop(_, _, after) => after.Resume?
    case Dropping(_, _, after) => after.Resume?
    case Return(_, after) => after.Resume?
    case _ => false
  }

  /** All classes a state mentions. */
  predicate InRange(p: PC, classes: nat) {
    match p
    case Idle => true
    case Invert(c, v, _) => c < classes && v < classes
    case Shrink(c, v, _) => c < classes && v < classes
    case Release(l, after) => l < classes && AfterClass(after) < classes
    case Drop(l, _, after) => l < classes && AfterClass(after) < classes
    case Dropping(l, _, after) => l < classes && AfterClass(after) < classes
    case Return(l, after) => l < classes && AfterClass(after) < classes
    case _ => p.c < classes
  }

  /** A central free list: its spans with and without free objects, how many there are,
      the number of free objects, and the transfer cache's slots in use and in all. */
  datatype Central = Central(nonempty: seq<SpanPtr>, empty: seq<SpanPtr>, numSpans: int, counter: int, used: int, cacheSize: int)

  /** Per class: objects moved at a time, objects in a span, the limit of the cache. */
  datatype Config = Config(batch: seq<nat>, capacity: seq<nat>, maxCache: seq<int>)

  datatype State = State(
    centrals: seq<Central>,
    classOf: map<SpanPtr, ClassId>,     // the spans carved into objects
    refcount: map<SpanPtr, int>,
    lists: Lists,
    places: Places,
    heap: set<SpanPtr>,                 // the spans the page heap has handed out
    holder: map<Lock, Thread>,
    pcs: seq<PC>)

  // ---- Locks ----

  function Goto(s: State, t: Thread, p: PC): State
    requires t < |s.pcs|
  {
    s.(pcs := s.pcs[t := p])
  }

  function Acquire(s: State, t: Thread, k: Lock, p: PC): State
    requires t < |s.pcs|
  {
    s.(pcs := s.pcs[t := p], holder := s.holder[k := t])
  }

  function Leave(s: State, t: Thread, k: Lock, p: PC): State
    requires t < |s.pcs|
  {
    s.(pcs := s.pcs[t := p], holder := s.holder - {k})
  }

  /** A lock has a holder exactly if a thread is in a state that holds it. */
  ghost predicate LocksOk(holder: map<Lock, Thread>, pcs: seq<PC>) {
    && (forall k | k in holder :: holder[k] < |pcs| && k in Held(pcs[holder[k]]))
    && (forall t, k | 0 <= t < |pcs| && k in Held(pcs[t]) :: k in holder && holder[k] == t)
  }

  lemma GotoLocks(s: State, t: Thread, p: PC)
    requires LocksOk(s.holder, s.pcs) && t < |s.pcs| && Held(p) == Held(s.pcs[t])
    ensures LocksOk(Goto(s, t, p).holder, Goto(s, t, p).pcs)
  {
    hide Held;
  }

  lemma AcquireLocks(s: State, t: Thread, k: Lock, p: PC)
    requires LocksOk(s.holder, s.pcs) && t < |s.pcs| && Held(s.pcs[t]) == {} && Held(p) == {k} && k !in s.holder
    ensures LocksOk(Acquire(s, t, k, p).holder, Acquire(s, t, k, p).pcs)
  {
    hide Held;
  }

  lemma LeaveLocks(s: State, t: Thread, k: Lock, p: PC)
    requires LocksOk(s.holder, s.pcs) && t < |s.pcs| && Held(s.pcs[t]) == {k} && Held(p) == {}
    ensures LocksOk(Leave(s, t, k, p).holder, Leave(s, t, k, p).pcs)
  {
    hide Held;
    var holder, pcs := s.holder - {k}, s.pcs[t := p];
    assert k in Held(s.pcs[t]);
    assert s.holder[k] == t;
    forall u, j | 0 <= u < |pcs| && j in Held(pcs[u]) ensures j in holder && holder[j] == u {
      assert pcs[u] == if u == t then p else s.pcs[u];
      assert j in Held(s.pcs[u]) && s.holder[j] == u;
    }
    forall j | j in holder ensures holder[j] < |pcs| && j in Held(pcs[holder[j]]) {
      assert j in Held(s.pcs[s.holder[j]]);
    }
  }

  // ---- The steps ----

  datatype Event =
    | CallInsert(t: Thread, c: ClassId, chain: seq<Obj>)
    | CallRemove(t: Thread, c: ClassId, n: nat)
    | Take(t: Thread)                 // takes the lock it waits for
    | Steal(t: Thread, v: ClassId)    // picks a class to steal a slot from
    | Obtain(t: Thread, s: SpanPtr)   // gets a span, or NULL, from the page heap
    | Work(t: Thread)                 // does its work under the lock it holds

  ghost predicate Enabled(s: State, e: Event) {
    && e.t < |s.pcs|
    && var p := s.pcs[e.t];
       match e
       case CallInsert(_, c, chain) =>
         && p.Idle? && c < |s.centrals| && chain != [] && Distinct(chain)
         && forall o | o in chain :: o in s.places && s.places[o] == Client && o.span in s.classOf && s.classOf[o.span] == c
       case CallRemove(_, c, n) => p.Idle? && c < |s.centrals| && n > 0
       case Take(_) => Waits(p) && Wanted(p) !in s.holder
       case Steal(_, v) => p.Evict? && v < |s.centrals|
       case Obtain(_, x) => p.Growing? && (x == NULL || x !in s.heap)
       case Work(_) => p.Inserting? || p.Shrink? || p.Resumed? || p.Release? || p.Dropping? || p.Removing? || p.Fetch? || p.Populating?
  }

  function SetCentral(s: State, c: ClassId, f: Central): State
    requires c < |s.centrals|
  {
    s.(centrals := s.centrals[c := f])
  }

  /** Puts the chain in hand into the next slot and leaves. */
  function Store(s: State, t: Thread, c: ClassId): State
    requires t < |s.pcs| && c < |s.centrals|
  {
    var f := s.centrals[c];
    var chain := At(s.lists, Hand(t));
    var s1 := SetCentral(s, c, f.(used := f.used + 1));
    var s2 := s1.(lists := Shift(s.lists, Hand(t), |chain|, InSlot(c, f.used)), places := Moved(s.places, chain, InSlot(c, f.used)));
    Leave(s2, t, ClassLock(c), Idle)
  }

  /** Starts giving the chain in hand back to its spans. */
  function GiveBack(s: State, t: Thread, c: ClassId): State
    requires t < |s.pcs|
  {
    var chain := At(s.lists, Hand(t));
    Goto(s.(lists := Shift(s.lists, Hand(t), |chain|, Rest(t)), places := Moved(s.places, chain, Rest(t))), t, Release(c, Finish))
  }

  function AfterNoEvict(s: State, t: Thread, c: ClassId, force: bool): State
    requires t < |s.pcs|
  {
    if force then GiveBack(s, t, c) else Goto(s, t, Evict(c, true))
  }

  function DoInserting(g: Config, s: State, t: Thread, c: ClassId): State
    requires t < |s.pcs| && c < |s.centrals| && |g.batch| == |g.maxCache| == |s.centrals|
  {
    var f := s.centrals[c];
    if |At(s.lists, Hand(t))| == g.batch[c] && f.used < f.cacheSize then Store(s, t, c)
    else if |At(s.lists, Hand(t))| == g.batch[c] && f.cacheSize != g.maxCache[c] then Goto(s, t, Evict(c, false))
    else GiveBack(s, t, c)
  }

  /** Looks at the victim without its lock. */
  function DoSteal(s: State, t: Thread, c: ClassId, force: bool, v: ClassId): State
    requires t < |s.pcs| && v < |s.centrals|
  {
    var f := s.centrals[v];
    if v == c || f.cacheSize == 0 || (!force && f.used == f.cacheSize) then AfterNoEvict(s, t, c, force)
    else Leave(s, t, ClassLock(c), Invert(c, v, force))
  }

  function DoShrink(s: State, t: Thread, c: ClassId, v: ClassId, force: bool): State
    requires t < |s.pcs| && v < |s.centrals|
  {
    var f := s.centrals[v];
    if f.cacheSize == 0 || (f.used == f.cacheSize && !force) then Leave(s, t, ClassLock(v), Back(c, force, false))
    else if f.used == f.cacheSize then
      var chain := At(s.lists, InSlot(v, f.used - 1));
      var s1 := SetCentral(s, v, f.(cacheSize := f.cacheSize - 1, used := f.used - 1));
      Goto(s1.(lists := Shift(s.lists, InSlot(v, f.used - 1), |chain|, Rest(t)), places := Moved(s.places, chain, Rest(t))),
           t, Release(v, Resume(c)))
    else Leave(SetCentral(s, v, f.(cacheSize := f.cacheSize - 1)), t, ClassLock(v), Back(c, force, true))
  }

  function DoResumed(g: Config, s: State, t: Thread, c: ClassId, force: bool, won: bool): State
    requires t < |s.pcs| && c < |s.centrals| == |g.maxCache|
  {
    var f := s.centrals[c];
    if won then
      if f.cacheSize < g.maxCache[c] then Store(SetCentral(s, c, f.(cacheSize := f.cacheSize + 1)), t, c)
      else GiveBack(s, t, c)
    else AfterNoEvict(s, t, c, force)
  }

  /** Gives one object back to its span. If that was the last one out, the span is taken
      off the list, to go back to the page heap. */
  function DoRelease(g: Config, s: State, t: Thread, l: ClassId, after: After): State
    requires t < |s.pcs| && l < |s.centrals| == |g.capacity|
    requires At(s.lists, Rest(t)) != [] ==> At(s.lists, Rest(t))[0].span in s.refcount
  {
    var rest := At(s.lists, Rest(t));
    if rest == [] then Leave(s, t, ClassLock(l), if after.Resume? then Back(after.c, true, true) else Idle)
    else
      var x, f := rest[0].span, s.centrals[l];
      if s.refcount[x] == 1 then
        var f' := f.(nonempty := Without(f.nonempty, x), empty := Without(f.empty, x), numSpans := f.numSpans - 1,
                     counter := f.counter + 1 - g.capacity[l]);
        var s1 := SetCentral(s, l, f').(
          classOf := s.classOf - {x}, refcount := s.refcount - {x},
          lists := s.lists[InSpan(x) := []][Rest(t) := rest[1..]],
          places := map o | o in s.places && o.span != x :: s.places[o]);
        Leave(s1, t, ClassLock(l), Drop(l, x, after))
      else
        var f1 := if At(s.lists, InSpan(x)) == [] then f.(nonempty := [x] + f.nonempty, empty := Without(f.empty, x)) else f;
        SetCentral(s, l, f1.(counter := f.counter + 1)).(
          refcount := s.refcount[x := s.refcount[x] - 1],
          lists := Shift(s.lists, Rest(t), 1, InSpan(x)), places := Moved(s.places, rest[..1], InSpan(x)))
  }

  function DoRemoving(g: Config, s: State, t: Thread, c: ClassId, n: nat): State
    requires t < |s.pcs| && c < |s.centrals| == |g.batch|
  {
    var f := s.centrals[c];
    if n == g.batch[c] && f.used > 0 then
      var slot := InSlot(c, f.used - 1);
      var s1 := SetCentral(s, c, f.(used := f.used - 1)).(
        lists := s.lists[slot := []], places := Moved(s.places, At(s.lists, slot), Client));
      Leave(s1, t, ClassLock(c), Idle)
    else Goto(s, t, Fetch(c, n, false))
  }

  /** Takes objects from the first span that has some; without any, populates once; hands
      the fetched objects out at the end. */
  function DoFetch(s: State, t: Thread, c: ClassId, n: nat, populated: bool): State
    requires t < |s.pcs| && c < |s.centrals|
    requires s.centrals[c].nonempty != [] ==> s.centrals[c].nonempty[0] in s.refcount
  {
    var f, got := s.centrals[c], At(s.lists, Hand(t));
    if |got| < n && f.nonempty != [] then
      var x := f.nonempty[0];
      var objs := At(s.lists, InSpan(x));
      var k := if n - |got| < |objs| then n - |got| else |objs|;
      var f1 := if k == |objs| then f.(nonempty := f.nonempty[1..], empty := [x] + f.empty) else f;
      SetCentral(s, c, f1.(counter := f.counter - k)).(
        refcount := s.refcount[x := s.refcount[x] + k],
        lists := Shift(s.lists, InSpan(x), k, Hand(t)), places := Moved(s.places, objs[..k], Hand(t)))
    else if got == [] && !populated then Leave(s, t, ClassLock(c), Grow(c, n))
    else
      Leave(s.(lists := s.lists[Hand(t) := []], places := Moved(s.places, got, Client)), t, ClassLock(c), Idle)
  }

  function DoPopulating(g: Config, s: State, t: Thread, c: ClassId, n: nat, x: SpanPtr): State
    requires t < |s.pcs| && c < |s.centrals| == |g.capacity|
  {
    if x == NULL then Goto(s, t, Fetch(c, n, true))
    else
      var f := s.centrals[c];
      var s1 := SetCentral(s, c, f.(nonempty := [x] + f.nonempty, numSpans := f.numSpans + 1, counter := f.counter + g.capacity[c])).(
        classOf := s.classOf[x := c], refcount := s.refcount[x := 0],
        lists := s.lists[InSpan(x) := Carved(x, g.capacity[c])],
        places := s.places + map o | o in Carved(x, g.capacity[c]) :: InSpan(x));
      Goto(s1, t, Fetch(c, n, true))
  }

  ghost predicate ConfigOk(g: Config) {
    && |g.batch| == |g.capacity| == |g.maxCache|
    && (forall c | 0 <= c < |g.batch| :: g.batch[c] >= 1 && g.capacity[c] >= 1 && g.maxCache[c] >= 0)
  }

  // ---- The transfer caches' sizes ----

  ghost function SumCache(centrals: seq<Central>): int {
    if centrals == [] then 0 else centrals[0].cacheSize + SumCache(centrals[1..])
  }

  ghost function SumCredit(pcs: seq<PC>): int {
    if pcs == [] then 0 else Credit(pcs[0]) + SumCredit(pcs[1..])
  }

  lemma {:induction false} SumCacheUpdate(centrals: seq<Central>, c: nat, f: Central)
    requires c < |centrals|
    ensures SumCache(centrals[c := f]) == SumCache(centrals) - centrals[c].cacheSize + f.cacheSize
  {
    if c == 0 {
      assert centrals[c := f] == [f] + centrals[1..];
    } else {
      SumCacheUpdate(centrals[1..], c - 1, f);
      assert centrals[c := f] == [centrals[0]] + centrals[1..][c - 1 := f];
    }
  }

  lemma {:induction false} SumCreditUpdate(pcs: seq<PC>, t: nat, p: PC)
    requires t < |pcs|
    ensures SumCredit(pcs[t := p]) == SumCredit(pcs) - Credit(pcs[t]) + Credit(p)
  {
    if t == 0 {
      assert pcs[t := p] == [p] + pcs[1..];
    } else {
      SumCreditUpdate(pcs[1..], t - 1, p);
      assert pcs[t := p] == [pcs[0]] + pcs[1..][t - 1 := p];
    }
  }

  /** Each cache's slots are within its size and that within its limit; all sizes, with
      the slots being moved, do not exceed the total there was to begin with. */
  ghost predicate CachesOk(g: Config, centrals: seq<Central>, pcs: seq<PC>, total: int) {
    && |centrals| == |g.maxCache|
    && (forall c | 0 <= c < |centrals| :: 0 <= centrals[c].used <= centrals[c].cacheSize <= g.maxCache[c])
    && SumCache(centrals) + SumCredit(pcs) <= total
  }

  lemma CachesStep(g: Config, centrals: seq<Central>, pcs: seq<PC>, total: int, c: nat, f: Central, t: nat, p: PC)
    requires CachesOk(g, centrals, pcs, total) && c < |centrals| && t < |pcs|
    requires 0 <= f.used <= f.cacheSize <= g.maxCache[c]
    requires f.cacheSize + Credit(p) <= centrals[c].cacheSize + Credit(pcs[t])
    ensures CachesOk(g, centrals[c := f], pcs[t := p], total)
  {
    SumCacheUpdate(centrals, c, f);
    SumCreditUpdate(pcs, t, p);
  }

  // ---- Objects ----

  /** An object on a list belongs there: its span or its class is the list's. */
  ghost predicate Fits(classOf: map<SpanPtr, ClassId>, pcs: seq<PC>, l: Loc, o: Obj) {
    o.span in classOf && match l
      case InSpan(x) => o.span == x
      case InSlot(c, _) => classOf[o.span] == c
      case Hand(t) => t < |pcs| && HandClass(pcs[t]) == classOf[o.span]
      case Rest(t) => t < |pcs| && RestClass(pcs[t]) == classOf[o.span]
      case Client => true
  }

  ghost predicate AllFit(classOf: map<SpanPtr, ClassId>, pcs: seq<PC>, lists: Lists) {
    forall l, o | l in lists && o in lists[l] :: Fits(classOf, pcs, l, o)
  }

  /** The objects are exactly those carved from the live spans. */
  ghost predicate Carves(g: Config, classOf: map<SpanPtr, ClassId>, places: Places) {
    && (forall x | x in classOf :: x != NULL && classOf[x] < |g.capacity|)
    && (forall o: Obj :: o in places <==> o.span in classOf && o.index < g.capacity[classOf[o.span]])
  }

  /** Slots in use hold full chains; the others none. */
  ghost predicate SlotsOk(g: Config, centrals: seq<Central>, lists: Lists) {
    && |centrals| == |g.batch|
    && forall c: nat, i {:trigger InSlot(c, i)} :: |At(lists, InSlot(c, i))| == if c < |centrals| && 0 <= i < centrals[c].used then g.batch[c] else 0
  }

  /** The objects of a span that are out and those that are free make up the span. */
  ghost predicate CountsOk(g: Config, classOf: map<SpanPtr, ClassId>, refcount: map<SpanPtr, int>, lists: Lists) {
    && refcount.Keys == classOf.Keys
    && (forall x | x in classOf :: classOf[x] < |g.capacity| && refcount[x] + |At(lists, InSpan(x))| == g.capacity[classOf[x]])
  }

  ghost function SumFree(q: seq<SpanPtr>, lists: Lists): int {
    if q == [] then 0 else |At(lists, InSpan(q[0]))| + SumFree(q[1..], lists)
  }

  /** The lists of one class hold its spans, with and without free objects, each once,
      and the counters count them. */
  ghost predicate ListedClass(f: Central, c: ClassId, classOf: map<SpanPtr, ClassId>, lists: Lists) {
    && NoDup(f.nonempty) && NoDup(f.empty)
    && (forall x :: x in f.nonempty <==> x in classOf && classOf[x] == c && At(lists, InSpan(x)) != [])
    && (forall x :: x in f.empty <==> x in classOf && classOf[x] == c && At(lists, InSpan(x)) == [])
    && f.counter == SumFree(f.nonempty, lists)
    && f.numSpans == |f.nonempty| + |f.empty|
  }

  ghost predicate AllListed(centrals: seq<Central>, classOf: map<SpanPtr, ClassId>, lists: Lists) {
    forall c | 0 <= c < |centrals| :: ListedClass(centrals[c], c, classOf, lists)
  }

  /** The live spans, and those in flight, are spans the page heap has handed out; no span
      is in flight twice, or live and in flight. */
  ghost predicate FlightsOk(classOf: map<SpanPtr, ClassId>, heap: set<SpanPtr>, pcs: seq<PC>) {
    && classOf.Keys <= heap
    && (forall t | 0 <= t < |pcs| && Flight(pcs[t]) != NULL :: Flight(pcs[t]) in heap && Flight(pcs[t]) !in classOf)
    && (forall t, u | 0 <= t < u < |pcs| && Flight(pcs[t]) != NULL :: Flight(pcs[t]) != Flight(pcs[u]))
  }

  ghost predicate FullAt(g: Config, lists: Lists, t: Thread, p: PC) {
    Full(p) ==> 0 <= HandClass(p) < |g.batch| && |At(lists, Hand(t))| == g.batch[HandClass(p)]
  }

  ghost predicate FullOk(g: Config, lists: Lists, pcs: seq<PC>) {
    forall t | 0 <= t < |pcs| :: FullAt(g, lists, t, pcs[t])
  }

  lemma FullStep(g: Config, lists: Lists, lists': Lists, pcs: seq<PC>, t: nat, p: PC)
    requires FullOk(g, lists, pcs) && t < |pcs| && FullAt(g, lists', t, p)
    requires forall u: nat | u != t :: At(lists', Hand(u)) == At(lists, Hand(u))
    ensures FullOk(g, lists', pcs[t := p])
  {
  }

  ghost predicate PcsInRange(pcs: seq<PC>, classes: nat) { forall t | 0 <= t < |pcs| :: InRange(pcs[t], classes) }

  ghost predicate Inv(g: Config, s: State, total: int) {
    && ConfigOk(g) && LocksOk(s.holder, s.pcs) && CachesOk(g, s.centrals, s.pcs, total)
    && Partition(s.lists, s.places) && AllFit(s.classOf, s.pcs, s.lists) && Carves(g, s.classOf, s.places)
    && SlotsOk(g, s.centrals, s.lists) && CountsOk(g, s.classOf, s.refcount, s.lists)
    && AllListed(s.centrals, s.classOf, s.lists) && FlightsOk(s.classOf, s.heap, s.pcs) && PcsInRange(s.pcs, |s.centrals|)
    && FullOk(g, s.lists, s.pcs)
  }

  // ---- Frames ----

  ghost predicate SameFree(lists: Lists, lists': Lists) {
    forall x :: At(lists', InSpan(x)) == At(lists, InSpan(x))
  }

  ghost predicate SameSlots(lists: Lists, lists': Lists) {
    forall c, i :: At(lists', InSlot(c, i)) == At(lists, InSlot(c, i))
  }

  lemma {:induction false} SumFreeFrame(q: seq<SpanPtr>, lists: Lists, lists': Lists)
    requires forall x | x in q :: At(lists', InSpan(x)) == At(lists, InSpan(x))
    ensures SumFree(q, lists') == SumFree(q, lists)
  {
    if q != [] {
      assert q[0] in q;
      assert forall x | x in q[1..] :: x in q;
      SumFreeFrame(q[1..], lists, lists');
    }
  }

  lemma {:induction false} SumFreeWithout(q: seq<SpanPtr>, lists: Lists, x: SpanPtr)
    requires NoDup(q)
    ensures x in q ==> SumFree(Without(q, x), lists) == SumFree(q, lists) - |At(lists, InSpan(x))| && |Without(q, x)| == |q| - 1
    ensures x !in q ==> Without(q, x) == q
  {
    if q != [] && q[0] != x {
      assert q == [q[0]] + q[1..];
      assert NoDup(q[1..]);
      SumFreeWithout(q[1..], lists, x);
    }
  }

  lemma {:induction false} SumFreeChange(q: seq<SpanPtr>, lists: Lists, lists': Lists, x: SpanPtr)
    requires NoDup(q) && x in q && forall y | y in q && y != x :: At(lists', InSpan(y)) == At(lists, InSpan(y))
    ensures SumFree(q, lists') == SumFree(q, lists) - |At(lists, InSpan(x))| + |At(lists', InSpan(x))|
  {
    assert q == [q[0]] + q[1..];
    assert forall y | y in q[1..] :: y in q && y != q[0];
    if q[0] == x {
      SumFreeFrame(q[1..], lists, lists');
    } else {
      assert NoDup(q[1..]);
      SumFreeChange(q[1..], lists, lists', x);
    }
  }

  lemma ListedFrame(centrals: seq<Central>, centrals': seq<Central>, classOf: map<SpanPtr, ClassId>, lists: Lists, lists': Lists)
    requires AllListed(centrals, classOf, lists) && SameFree(lists, lists') && |centrals'| == |centrals|
    requires forall c | 0 <= c < |centrals| ::
      && centrals'[c].nonempty == centrals[c].nonempty && centrals'[c].empty == centrals[c].empty
      && centrals'[c].numSpans == centrals[c].numSpans && centrals'[c].counter == centrals[c].counter
    ensures AllListed(centrals', classOf, lists')
  {
    forall c | 0 <= c < |centrals| ensures ListedClass(centrals'[c], c, classOf, lists') {
      assert ListedClass(centrals[c], c, classOf, lists);
      SumFreeFrame(centrals[c].nonempty, lists, lists');
    }
  }

  lemma CountsFrame(g: Config, classOf: map<SpanPtr, ClassId>, refcount: map<SpanPtr, int>, lists: Lists, lists': Lists)
    requires CountsOk(g, classOf, refcount, lists) && SameFree(lists, lists')
    ensures CountsOk(g, classOf, refcount, lists')
  {
  }

  lemma MovedCarves(g: Config, classOf: map<SpanPtr, ClassId>, places: Places, objs: seq<Obj>, l: Loc)
    requires Carves(g, classOf, places)
    ensures Carves(g, classOf, Moved(places, objs, l))
  {
  }

  /** Objects moved between lists of one class; the thread changes its state. */
  lemma ShiftFits(classOf: map<SpanPtr, ClassId>, pcs: seq<PC>, lists: Lists, a: Loc, n: int, b: Loc, t: nat, p: PC)
    requires AllFit(classOf, pcs, lists) && 0 <= n <= |At(lists, a)| && t < |pcs| && a != b
    requires forall o | o in At(lists, a)[..n] && Fits(classOf, pcs, a, o) :: Fits(classOf, pcs[t := p], b, o)
    requires HandClass(p) == HandClass(pcs[t]) || At(Shift(lists, a, n, b), Hand(t)) == []
    requires RestClass(p) == RestClass(pcs[t]) || At(lists, Rest(t)) == [] || At(Shift(lists, a, n, b), Rest(t)) == []
    requires b == Hand(t) ==> HandClass(p) == HandClass(pcs[t]) || At(lists, b) == []
    ensures AllFit(classOf, pcs[t := p], Shift(lists, a, n, b))
  {
    var lists', pcs' := Shift(lists, a, n, b), pcs[t := p];
    var x := At(lists, a);
    forall l, o | l in lists' && o in lists'[l] ensures Fits(classOf, pcs', l, o) {
      if l == b {
        if o in x[..n] {
          assert o in x;
          assert Fits(classOf, pcs, a, o);
        } else {
          assert o in At(lists, b);
          assert Fits(classOf, pcs, b, o);
        }
      } else {
        assert o in At(lists, l);
        assert Fits(classOf, pcs, l, o);
      }
    }
  }

  lemma PcFits(classOf: map<SpanPtr, ClassId>, pcs: seq<PC>, lists: Lists, t: nat, p: PC)
    requires AllFit(classOf, pcs, lists) && t < |pcs|
    requires HandClass(p) == HandClass(pcs[t]) || At(lists, Hand(t)) == []
    requires RestClass(p) == RestClass(pcs[t]) || At(lists, Rest(t)) == []
    ensures AllFit(classOf, pcs[t := p], lists)
  {
    forall l, o | l in lists && o in lists[l] ensures Fits(classOf, pcs[t := p], l, o) {
      assert Fits(classOf, pcs, l, o);
    }
  }

  lemma PcFlights(classOf: map<SpanPtr, ClassId>, heap: set<SpanPtr>, pcs: seq<PC>, t: nat, p: PC)
    requires FlightsOk(classOf, heap, pcs) && t < |pcs| && (Flight(p) == Flight(pcs[t]) || Flight(p) == NULL)
    ensures FlightsOk(classOf, heap, pcs[t := p])
  {
  }

  lemma PcRange(pcs: seq<PC>, classes: nat, t: nat, p: PC)
    requires PcsInRange(pcs, classes) && t < |pcs| && InRange(p, classes)
    ensures PcsInRange(pcs[t := p], classes)
  {
  }

  // ---- Every step keeps the invariant ----

  /** A step that changes only where a thread is and what it locks. */
  lemma ControlStep(g: Config, s: State, total: int, t: nat, p: PC, holder: map<Lock, Thread>)
    requires Inv(g, s, total) && t < |s.pcs| && LocksOk(holder, s.pcs[t := p]) && InRange(p, |s.centrals|)
    requires HandClass(p) == HandClass(s.pcs[t]) || At(s.lists, Hand(t)) == []
    requires RestClass(p) == RestClass(s.pcs[t]) || At(s.lists, Rest(t)) == []
    requires (Flight(p) == Flight(s.pcs[t]) || Flight(p) == NULL) && Credit(p) <= Credit(s.pcs[t]) && FullAt(g, s.lists, t, p)
    ensures Inv(g, s.(pcs := s.pcs[t := p], holder := holder), total)
  {
    hide LocksOk, Partition, AllFit, Carves, SlotsOk, CountsOk, AllListed, FlightsOk, PcsInRange, HandClass, RestClass, Flight, Credit, InRange, FullAt, FullOk;
    FullStep(g, s.lists, s.lists, s.pcs, t, p);
    PcFits(s.classOf, s.pcs, s.lists, t, p);
    PcFlights(s.classOf, s.heap, s.pcs, t, p);
    PcRange(s.pcs, |s.centrals|, t, p);
    SumCreditUpdate(s.pcs, t, p);
  }

  predicate Chain(l: Loc) { l.InSlot? || l.Hand? || l.Rest? }

  lemma ShiftSameFree(lists: Lists, a: Loc, n: int, b: Loc)
    requires 0 <= n <= |At(lists, a)| && Chain(a) && Chain(b)
    ensures SameFree(lists, Shift(lists, a, n, b))
  {
  }

  ghost predicate SameListing(centrals: seq<Central>, centrals': seq<Central>) {
    && |centrals'| == |centrals|
    && forall c | 0 <= c < |centrals| ::
      && centrals'[c].nonempty == centrals[c].nonempty && centrals'[c].empty == centrals[c].empty
      && centrals'[c].numSpans == centrals[c].numSpans && centrals'[c].counter == centrals[c].counter
  }

  /** A step that moves a chain between slots and threads. */
  lemma ChainStep(g: Config, s: State, total: int, t: nat, p: PC, holder: map<Lock, Thread>, centrals: seq<Central>, a: Loc, b: Loc)
    requires Inv(g, s, total) && t < |s.pcs| && LocksOk(holder, s.pcs[t := p]) && InRange(p, |s.centrals|)
    requires Chain(a) && Chain(b) && a != b && At(s.lists, b) == []
    requires SameListing(s.centrals, centrals) && CachesOk(g, centrals, s.pcs[t := p], total)
    requires SlotsOk(g, centrals, Shift(s.lists, a, |At(s.lists, a)|, b))
    requires forall o | o in At(s.lists, a) && Fits(s.classOf, s.pcs, a, o) :: Fits(s.classOf, s.pcs[t := p], b, o)
    requires HandClass(p) == HandClass(s.pcs[t]) || a == Hand(t)
    requires RestClass(p) == RestClass(s.pcs[t]) || At(s.lists, Rest(t)) == []
    requires Flight(p) == Flight(s.pcs[t]) || Flight(p) == NULL
    requires (a.Hand? ==> a.t == t) && (b.Hand? ==> b.t == t) && FullAt(g, Shift(s.lists, a, |At(s.lists, a)|, b), t, p)
    ensures var chain := At(s.lists, a);
            Inv(g, s.(pcs := s.pcs[t := p], holder := holder, centrals := centrals,
                      lists := Shift(s.lists, a, |chain|, b), places := Moved(s.places, chain, b)), total)
  {
    hide LocksOk, Partition, AllFit, Carves, SlotsOk, CountsOk, AllListed, FlightsOk, PcsInRange, CachesOk, HandClass, RestClass, Flight, Credit, InRange, Fits, FullAt, FullOk;
    var chain := At(s.lists, a);
    FullStep(g, s.lists, Shift(s.lists, a, |chain|, b), s.pcs, t, p);
    assert chain[..|chain|] == chain;
    ShiftPartition(s.lists, s.places, a, |chain|, b);
    MovedCarves(g, s.classOf, s.places, chain, b);
    ShiftFits(s.classOf, s.pcs, s.lists, a, |chain|, b, t, p);
    ShiftSameFree(s.lists, a, |chain|, b);
    CountsFrame(g, s.classOf, s.refcount, s.lists, Shift(s.lists, a, |chain|, b));
    ListedFrame(s.centrals, centrals, s.classOf, s.lists, Shift(s.lists, a, |chain|, b));
    PcFlights(s.classOf, s.heap, s.pcs, t, p);
    PcRange(s.pcs, |s.centrals|, t, p);
  }

  /** What the invariant says about one thread's hands. */
  lemma Empties(g: Config, s: State, total: int, t: nat)
    requires Inv(g, s, total) && t < |s.pcs|
    ensures HandClass(s.pcs[t]) == -1 ==> At(s.lists, Hand(t)) == []
    ensures RestClass(s.pcs[t]) == -1 ==> At(s.lists, Rest(t)) == []
    ensures InRange(s.pcs[t], |s.centrals|) && FullAt(g, s.lists, t, s.pcs[t])
  {
    hide LocksOk, Partition, Carves, SlotsOk, CountsOk, AllListed, FlightsOk, CachesOk;
    if At(s.lists, Hand(t)) != [] {
      var o := At(s.lists, Hand(t))[0];
      assert o in s.lists[Hand(t)];
      assert Fits(s.classOf, s.pcs, Hand(t), o);
    }
    if At(s.lists, Rest(t)) != [] {
      var o := At(s.lists, Rest(t))[0];
      assert o in s.lists[Rest(t)];
      assert Fits(s.classOf, s.pcs, Rest(t), o);
    }
  }

  /** What it says about one class's cache. */
  lemma CacheFacts(g: Config, s: State, total: int, c: nat)
    requires Inv(g, s, total) && c < |s.centrals|
    ensures |s.centrals| == |g.maxCache| == |g.batch| == |g.capacity| && g.batch[c] >= 1
    ensures 0 <= s.centrals[c].used <= s.centrals[c].cacheSize <= g.maxCache[c]
    ensures forall i :: |At(s.lists, InSlot(c, i))| == if 0 <= i < s.centrals[c].used then g.batch[c] else 0
  {
    hide LocksOk, Partition, Carves, CountsOk, AllListed, FlightsOk, AllFit, PcsInRange;
  }

  /** Slots after a full chain went into the next one, or the last one was emptied. */
  lemma StoreSlots(g: Config, centrals: seq<Central>, lists: Lists, c: ClassId, f: Central, t: Thread)
    requires SlotsOk(g, centrals, lists) && c < |centrals| && f.used == centrals[c].used + 1 && centrals[c].used >= 0
    requires |At(lists, Hand(t))| == g.batch[c]
    ensures SlotsOk(g, centrals[c := f], Shift(lists, Hand(t), |At(lists, Hand(t))|, InSlot(c, centrals[c].used)))
    ensures At(lists, InSlot(c, centrals[c].used)) == []
  {
    assert |At(lists, InSlot(c, centrals[c].used))| == 0;
  }

  lemma PopSlots(g: Config, centrals: seq<Central>, lists: Lists, c: ClassId, f: Central, t: Thread)
    requires SlotsOk(g, centrals, lists) && c < |centrals| && f.used == centrals[c].used - 1 && f.used >= 0
    ensures var slot := InSlot(c, f.used);
            && SlotsOk(g, centrals[c := f], Shift(lists, slot, |At(lists, slot)|, Rest(t)))
            && SlotsOk(g, centrals[c := f], lists[slot := []])
  {
  }

  lemma TakeStep(g: Config, s: State, total: int, t: nat)
    requires Inv(g, s, total) && t < |s.pcs| && Waits(s.pcs[t]) && Wanted(s.pcs[t]) !in s.holder
    ensures Inv(g, Acquire(s, t, Wanted(s.pcs[t]), Entered(s.pcs[t])), total)
  {
    hide Partition, AllFit, Carves, SlotsOk, CountsOk, AllListed, FlightsOk, CachesOk, LocksOk;
    Empties(g, s, total, t);
    AcquireLocks(s, t, Wanted(s.pcs[t]), Entered(s.pcs[t]));
    ControlStep(g, s, total, t, Entered(s.pcs[t]), s.holder[Wanted(s.pcs[t]) := t]);
  }

  lemma GiveBackStep(g: Config, s: State, total: int, t: nat, c: ClassId)
    requires Inv(g, s, total) && t < |s.pcs| && c < |s.centrals|
    requires Held(s.pcs[t]) == {ClassLock(c)} && HandClass(s.pcs[t]) == c && RestClass(s.pcs[t]) == -1
    ensures Inv(g, GiveBack(s, t, c), total)
  {
    hide Partition, AllFit, Carves, CountsOk, AllListed, FlightsOk, LocksOk, CachesOk;
    Empties(g, s, total, t);
    GotoLocks(s, t, Release(c, Finish));
    NoCredit(g, s, total, t, Release(c, Finish));
    ChainStep(g, s, total, t, Release(c, Finish), s.holder, s.centrals, Hand(t), Rest(t));
  }

  /** A state with no slot to add keeps the sum within the total. */
  lemma NoCredit(g: Config, s: State, total: int, t: nat, p: PC)
    requires Inv(g, s, total) && t < |s.pcs| && Credit(p) <= Credit(s.pcs[t])
    ensures CachesOk(g, s.centrals, s.pcs[t := p], total)
  {
    hide Partition, AllFit, Carves, CountsOk, AllListed, FlightsOk, LocksOk, SlotsOk, PcsInRange, Credit;
    SumCreditUpdate(s.pcs, t, p);
  }

  /** Storing a chain, where the cache may first have grown by the slot that was won. */
  lemma StoreStep(g: Config, s: State, total: int, t: nat, c: ClassId, grown: int)
    requires Inv(g, s, total) && t < |s.pcs| && c < |s.centrals| && |At(s.lists, Hand(t))| == g.batch[c]
    requires Held(s.pcs[t]) == {ClassLock(c)} && HandClass(s.pcs[t]) == c && RestClass(s.pcs[t]) == -1
    requires 0 <= grown <= Credit(s.pcs[t]) && s.centrals[c].used < s.centrals[c].cacheSize + grown <= g.maxCache[c]
    ensures Inv(g, Store(SetCentral(s, c, s.centrals[c].(cacheSize := s.centrals[c].cacheSize + grown)), t, c), total)
  {
    hide Partition, AllFit, Carves, CountsOk, AllListed, FlightsOk, LocksOk, CachesOk, Inv, SlotsOk, Shift;
    var f := s.centrals[c];
    var f' := f.(cacheSize := f.cacheSize + grown, used := f.used + 1);
    Facts(g, s, total);
    Empties(g, s, total, t);
    CacheFacts(g, s, total, c);
    LeaveLocks(s, t, ClassLock(c), Idle);
    CachesStep(g, s.centrals, s.pcs, total, c, f', t, Idle);
    var centrals := s.centrals[c := f'];
    StoreSlots(g, s.centrals, s.lists, c, f', t);
    ChainStep(g, s, total, t, Idle, s.holder - {ClassLock(c)}, centrals, Hand(t), InSlot(c, f.used));
    assert s.centrals[c := f.(cacheSize := f.cacheSize + grown)][c := f'] == centrals;
  }

  lemma Facts(g: Config, s: State, total: int)
    requires Inv(g, s, total)
    ensures LocksOk(s.holder, s.pcs) && CachesOk(g, s.centrals, s.pcs, total) && SlotsOk(g, s.centrals, s.lists)
  {
  }

  lemma AfterNoEvictStep(g: Config, s: State, total: int, t: nat, c: ClassId, force: bool)
    requires Inv(g, s, total) && t < |s.pcs| && c < |s.centrals|
    requires Held(s.pcs[t]) == {ClassLock(c)} && HandClass(s.pcs[t]) == c && RestClass(s.pcs[t]) == -1 && Full(s.pcs[t])
    ensures Inv(g, AfterNoEvict(s, t, c, force), total)
  {
    hide Inv, CachesOk, LocksOk;
    if force {
      GiveBackStep(g, s, total, t, c);
    } else {
      Facts(g, s, total);
      Empties(g, s, total, t);
      GotoLocks(s, t, Evict(c, true));
      ControlStep(g, s, total, t, Evict(c, true), s.holder);
    }
  }

  lemma InsertingStep(g: Config, s: State, total: int, t: nat, c: ClassId)
    requires Inv(g, s, total) && t < |s.pcs| && s.pcs[t] == Inserting(c) && c < |s.centrals|
    ensures |g.batch| == |g.maxCache| == |s.centrals| && Inv(g, DoInserting(g, s, t, c), total)
  {
    hide Inv, CachesOk, LocksOk, SlotsOk;
    CacheFacts(g, s, total, c);
    var f := s.centrals[c];
    if |At(s.lists, Hand(t))| == g.batch[c] && f.used < f.cacheSize {
      StoreStep(g, s, total, t, c, 0);
      assert s.centrals[c := f] == s.centrals;
    } else if |At(s.lists, Hand(t))| == g.batch[c] && f.cacheSize != g.maxCache[c] {
      Facts(g, s, total);
      Empties(g, s, total, t);
      GotoLocks(s, t, Evict(c, false));
      ControlStep(g, s, total, t, Evict(c, false), s.holder);
    } else {
      GiveBackStep(g, s, total, t, c);
    }
  }

  lemma StealStep(g: Config, s: State, total: int, t: nat, c: ClassId, force: bool, v: ClassId)
    requires Inv(g, s, total) && t < |s.pcs| && s.pcs[t] == Evict(c, force) && v < |s.centrals|
    ensures Inv(g, DoSteal(s, t, c, force, v), total)
  {
    hide Inv, CachesOk, LocksOk, SlotsOk;
    Facts(g, s, total);
    Empties(g, s, total, t);
    var f := s.centrals[v];
    if v == c || f.cacheSize == 0 || (!force && f.used == f.cacheSize) {
      AfterNoEvictStep(g, s, total, t, c, force);
    } else {
      LeaveLocks(s, t, ClassLock(c), Invert(c, v, force));
      ControlStep(g, s, total, t, Invert(c, v, force), s.holder - {ClassLock(c)});
    }
  }

  /** A step that changes the size of one cache. */
  lemma SizeStep(g: Config, s: State, total: int, t: nat, p: PC, holder: map<Lock, Thread>, v: ClassId, size: int)
    requires Inv(g, s, total) && t < |s.pcs| && v < |s.centrals| && LocksOk(holder, s.pcs[t := p]) && InRange(p, |s.centrals|)
    requires HandClass(p) == HandClass(s.pcs[t]) && RestClass(p) == RestClass(s.pcs[t]) && Flight(p) == Flight(s.pcs[t])
    requires FullAt(g, s.lists, t, p)
    requires CachesOk(g, s.centrals[v := s.centrals[v].(cacheSize := size)], s.pcs[t := p], total)
    ensures Inv(g, s.(pcs := s.pcs[t := p], holder := holder, centrals := s.centrals[v := s.centrals[v].(cacheSize := size)]), total)
  {
    hide LocksOk, Partition, AllFit, Carves, CountsOk, AllListed, FlightsOk, PcsInRange, CachesOk, HandClass, RestClass, Flight, Credit, InRange, FullAt, FullOk;
    FullStep(g, s.lists, s.lists, s.pcs, t, p);
    PcFits(s.classOf, s.pcs, s.lists, t, p);
    PcFlights(s.classOf, s.heap, s.pcs, t, p);
    PcRange(s.pcs, |s.centrals|, t, p);
    ListedFrame(s.centrals, s.centrals[v := s.centrals[v].(cacheSize := size)], s.classOf, s.lists, s.lists);
  }

  /** Taking the last slot of a full cache, with its chain. */
  lemma ShrinkFull(g: Config, s: State, total: int, t: nat, c: ClassId, v: ClassId, force: bool)
    requires Inv(g, s, total) && t < |s.pcs| && s.pcs[t] == Shrink(c, v, force) && v < |s.centrals|
    requires force && s.centrals[v].used == s.centrals[v].cacheSize != 0
    ensures Inv(g, DoShrink(s, t, c, v, force), total)
  {
    hide Inv, CachesOk, LocksOk, SlotsOk, Shift;
    Facts(g, s, total);
    Empties(g, s, total, t);
    CacheFacts(g, s, total, v);
    var f := s.centrals[v];
    var f' := f.(cacheSize := f.cacheSize - 1, used := f.used - 1);
    var slot, p := InSlot(v, f.used - 1), Release(v, Resume(c));
    GotoLocks(s, t, p);
    CachesStep(g, s.centrals, s.pcs, total, v, f', t, p);
    PopSlots(g, s.centrals, s.lists, v, f', t);
    ShiftOther(s.lists, slot, |At(s.lists, slot)|, Rest(t), Hand(t));
    ChainStep(g, s, total, t, p, s.holder, s.centrals[v := f'], slot, Rest(t));
  }

  lemma ShiftOther(lists: Lists, a: Loc, n: int, b: Loc, l: Loc)
    requires 0 <= n <= |At(lists, a)| && l != a && l != b
    ensures At(Shift(lists, a, n, b), l) == At(lists, l)
  {
  }

  lemma ShrinkStep(g: Config, s: State, total: int, t: nat, c: ClassId, v: ClassId, force: bool)
    requires Inv(g, s, total) && t < |s.pcs| && s.pcs[t] == Shrink(c, v, force) && v < |s.centrals|
    ensures Inv(g, DoShrink(s, t, c, v, force), total)
  {
    hide Inv, CachesOk, LocksOk, SlotsOk;
    Facts(g, s, total);
    Empties(g, s, total, t);
    CacheFacts(g, s, total, v);
    var f := s.centrals[v];
    if f.cacheSize == 0 || (f.used == f.cacheSize && !force) {
      LeaveLocks(s, t, ClassLock(v), Back(c, force, false));
      ControlStep(g, s, total, t, Back(c, force, false), s.holder - {ClassLock(v)});
    } else if f.used == f.cacheSize {
      ShrinkFull(g, s, total, t, c, v, force);
    } else {
      LeaveLocks(s, t, ClassLock(v), Back(c, force, true));
      CachesStep(g, s.centrals, s.pcs, total, v, f.(cacheSize := f.cacheSize - 1), t, Back(c, force, true));
      SizeStep(g, s, total, t, Back(c, force, true), s.holder - {ClassLock(v)}, v, f.cacheSize - 1);
    }
  }

  lemma ResumedStep(g: Config, s: State, total: int, t: nat, c: ClassId, force: bool, won: bool)
    requires Inv(g, s, total) && t < |s.pcs| && s.pcs[t] == Resumed(c, force, won) && c < |s.centrals|
    ensures |s.centrals| == |g.maxCache| && Inv(g, DoResumed(g, s, t, c, force, won), total)
  {
    hide Inv, CachesOk, LocksOk, SlotsOk;
    CacheFacts(g, s, total, c);
    Empties(g, s, total, t);
    if won {
      if s.centrals[c].cacheSize < g.maxCache[c] {
        StoreStep(g, s, total, t, c, 1);
      } else {
        GiveBackStep(g, s, total, t, c);
      }
    } else {
      AfterNoEvictStep(g, s, total, t, c, force);
    }
  }

  lemma CallInsertStep(g: Config, s: State, total: int, t: nat, c: ClassId, chain: seq<Obj>)
    requires Inv(g, s, total) && Enabled(s, CallInsert(t, c, chain))
    ensures Inv(g, s.(pcs := s.pcs[t := Insert(c)], lists := s.lists[Hand(t) := chain], places := Moved(s.places, chain, Hand(t))), total)
  {
    hide LocksOk, CachesOk, AllListed, CountsOk, FlightsOk, Carves, PcsInRange, Partition, FullOk;
    Empties(g, s, total, t);
    GotoLocks(s, t, Insert(c));
    NoCredit(g, s, total, t, Insert(c));
    FullStep(g, s.lists, s.lists[Hand(t) := chain], s.pcs, t, Insert(c));
    TakeInPartition(s.lists, s.places, chain, Hand(t));
    MovedCarves(g, s.classOf, s.places, chain, Hand(t));
    PcFlights(s.classOf, s.heap, s.pcs, t, Insert(c));
    PcRange(s.pcs, |s.centrals|, t, Insert(c));
    CountsFrame(g, s.classOf, s.refcount, s.lists, s.lists[Hand(t) := chain]);
    ListedFrame(s.centrals, s.centrals, s.classOf, s.lists, s.lists[Hand(t) := chain]);
  }

  lemma CallRemoveStep(g: Config, s: State, total: int, t: nat, c: ClassId, n: nat)
    requires Inv(g, s, total) && Enabled(s, CallRemove(t, c, n))
    ensures Inv(g, Goto(s, t, Remove(c, n)), total)
  {
    hide Inv, LocksOk, CachesOk, SlotsOk;
    Facts(g, s, total);
    Empties(g, s, total, t);
    GotoLocks(s, t, Remove(c, n));
    ControlStep(g, s, total, t, Remove(c, n), s.holder);
  }

  /** A step that hands a whole list out to the clients. */
  lemma HandOutStep(g: Config, s: State, total: int, t: nat, holder: map<Lock, Thread>, centrals: seq<Central>, a: Loc)
    requires Inv(g, s, total) && t < |s.pcs| && LocksOk(holder, s.pcs[t := Idle]) && Chain(a)
    requires SameListing(s.centrals, centrals) && CachesOk(g, centrals, s.pcs[t := Idle], total)
    requires SlotsOk(g, centrals, s.lists[a := []])
    requires HandClass(s.pcs[t]) == -1 || a == Hand(t)
    requires RestClass(s.pcs[t]) == -1 && (a.Hand? ==> a.t == t)
    ensures Inv(g, s.(pcs := s.pcs[t := Idle], holder := holder, centrals := centrals,
                      lists := s.lists[a := []], places := Moved(s.places, At(s.lists, a), Client)), total)
  {
    hide LocksOk, Partition, Carves, SlotsOk, CountsOk, AllListed, FlightsOk, PcsInRange, CachesOk, AllFit, FullOk;
    Empties(g, s, total, t);
    FullStep(g, s.lists, s.lists[a := []], s.pcs, t, Idle);
    HandOutPartition(s.lists, s.places, a);
    MovedCarves(g, s.classOf, s.places, At(s.lists, a), Client);
    DropFits(s.classOf, s.pcs, s.lists, a);
    PcFits(s.classOf, s.pcs, s.lists[a := []], t, Idle);
    CountsFrame(g, s.classOf, s.refcount, s.lists, s.lists[a := []]);
    ListedFrame(s.centrals, centrals, s.classOf, s.lists, s.lists[a := []]);
    PcFlights(s.classOf, s.heap, s.pcs, t, Idle);
    PcRange(s.pcs, |s.centrals|, t, Idle);
  }

  lemma DropFits(classOf: map<SpanPtr, ClassId>, pcs: seq<PC>, lists: Lists, a: Loc)
    requires AllFit(classOf, pcs, lists)
    ensures AllFit(classOf, pcs, lists[a := []])
  {
  }

  lemma RemovingStep(g: Config, s: State, total: int, t: nat, c: ClassId, n: nat)
    requires Inv(g, s, total) && t < |s.pcs| && s.pcs[t] == Removing(c, n) && c < |s.centrals|
    ensures |s.centrals| == |g.batch| && Inv(g, DoRemoving(g, s, t, c, n), total)
  {
    hide Inv, CachesOk, LocksOk, SlotsOk;
    Facts(g, s, total);
    Empties(g, s, total, t);
    CacheFacts(g, s, total, c);
    var f := s.centrals[c];
    if n == g.batch[c] && f.used > 0 {
      var slot := InSlot(c, f.used - 1);
      LeaveLocks(s, t, ClassLock(c), Idle);
      CachesStep(g, s.centrals, s.pcs, total, c, f.(used := f.used - 1), t, Idle);
      PopSlots(g, s.centrals, s.lists, c, f.(used := f.used - 1), t);
      HandOutStep(g, s, total, t, s.holder - {ClassLock(c)}, s.centrals[c := f.(used := f.used - 1)], slot);
    } else {
      GotoLocks(s, t, Fetch(c, n, false));
      ControlStep(g, s, total, t, Fetch(c, n, false), s.holder);
    }
  }

  // ---- Spans ----

  /** What the invariant says about a span. */
  lemma SpanKnown(g: Config, s: State, total: int, x: SpanPtr)
    requires Inv(g, s, total) && x in s.classOf
    ensures x in s.refcount && s.classOf[x] < |g.capacity| == |s.centrals| && x != NULL && x in s.heap
    ensures s.refcount[x] + |At(s.lists, InSpan(x))| == g.capacity[s.classOf[x]]
    ensures forall o | o in At(s.lists, InSpan(x)) :: o.span == x && o in s.places && o.index < g.capacity[s.classOf[x]]
  {
    hide LocksOk, AllListed, PcsInRange, FullOk, AllFit, Partition, SlotsOk;
    FreeKnown(g, s.classOf, s.pcs, s.lists, s.places, x);
  }

  lemma FreeKnown(g: Config, classOf: map<SpanPtr, ClassId>, pcs: seq<PC>, lists: Lists, places: Places, x: SpanPtr)
    requires AllFit(classOf, pcs, lists) && Partition(lists, places) && Carves(g, classOf, places) && x in classOf
    ensures classOf[x] < |g.capacity| && forall o | o in At(lists, InSpan(x)) :: o.span == x && o in places && o.index < g.capacity[classOf[x]]
  {
    forall o | o in At(lists, InSpan(x)) ensures o.span == x && o in places {
      assert o in lists[InSpan(x)];
      assert Fits(classOf, pcs, InSpan(x), o);
    }
  }

  /** The lists of the other classes are as before when one span of a class changes. */
  lemma ListedOther(f: Central, c: ClassId, classOf: map<SpanPtr, ClassId>, classOf': map<SpanPtr, ClassId>, lists: Lists, lists': Lists, x: SpanPtr)
    requires ListedClass(f, c, classOf, lists)
    requires forall y | y != x :: At(lists', InSpan(y)) == At(lists, InSpan(y)) && (y in classOf <==> y in classOf') && (y in classOf ==> classOf'[y] == classOf[y])
    requires (x in classOf ==> classOf[x] != c) && (x in classOf' ==> classOf'[x] != c)
    ensures ListedClass(f, c, classOf', lists')
  {
    SumFreeFrame(f.nonempty, lists, lists');
  }

  /** Free objects of one span were added or taken: the span's new place on the lists. */
  function Relisted(f: Central, x: SpanPtr, before: int, after: int): Central {
    if before == 0 && after > 0 then f.(nonempty := [x] + f.nonempty, empty := Without(f.empty, x))
    else if before > 0 && after == 0 then f.(nonempty := Without(f.nonempty, x), empty := [x] + f.empty)
    else f
  }

  lemma RelistedOk(f: Central, c: ClassId, classOf: map<SpanPtr, ClassId>, lists: Lists, lists': Lists, x: SpanPtr)
    requires ListedClass(f, c, classOf, lists) && x in classOf && classOf[x] == c && OnlySpan(lists, lists', x)
    ensures var before, after := |At(lists, InSpan(x))|, |At(lists', InSpan(x))|;
            ListedClass(Relisted(f, x, before, after).(counter := f.counter + after - before), c, classOf, lists')
  {
    hide ListedClass, OnlySpan;
    var before, after := |At(lists, InSpan(x))|, |At(lists', InSpan(x))|;
    if before == 0 && after > 0 {
      RelistFilled(f, c, classOf, lists, lists', x);
    } else if before > 0 && after == 0 {
      RelistEmptied(f, c, classOf, lists, lists', x);
    } else {
      RelistNot(f, c, classOf, lists, lists', x);
    }
  }

  lemma RelistNot(f: Central, c: ClassId, classOf: map<SpanPtr, ClassId>, lists: Lists, lists': Lists, x: SpanPtr)
    requires ListedClass(f, c, classOf, lists) && x in classOf && classOf[x] == c && OnlySpan(lists, lists', x)
    requires At(lists, InSpan(x)) == [] <==> At(lists', InSpan(x)) == []
    ensures ListedClass(f.(counter := f.counter + |At(lists', InSpan(x))| - |At(lists, InSpan(x))|), c, classOf, lists')
  {
    hide SumFree;
    if At(lists, InSpan(x)) != [] {
      SumFreeChange(f.nonempty, lists, lists', x);
    } else {
      SumFreeFrame(f.nonempty, lists, lists');
    }
  }

  ghost predicate OnlySpan(lists: Lists, lists': Lists, x: SpanPtr) {
    forall y | y != x :: At(lists', InSpan(y)) == At(lists, InSpan(y))
  }

  lemma RelistFilled(f: Central, c: ClassId, classOf: map<SpanPtr, ClassId>, lists: Lists, lists': Lists, x: SpanPtr)
    requires ListedClass(f, c, classOf, lists) && x in classOf && classOf[x] == c && OnlySpan(lists, lists', x)
    requires At(lists, InSpan(x)) == [] && At(lists', InSpan(x)) != []
    ensures ListedClass(f.(nonempty := [x] + f.nonempty, empty := Without(f.empty, x), counter := f.counter + |At(lists', InSpan(x))|), c, classOf, lists')
  {
    hide Without, SumFree;
    WithoutMembers(f.empty, x);
    SumFreeWithout(f.empty, lists, x);
    SumFreeFrame(f.nonempty, lists, lists');
    SumFreeFront(x, f.nonempty, lists');
  }

  lemma SumFreeFront(x: SpanPtr, q: seq<SpanPtr>, lists: Lists)
    ensures SumFree([x] + q, lists) == |At(lists, InSpan(x))| + SumFree(q, lists)
    ensures NoDup(q) && x !in q ==> NoDup([x] + q)
  {
    assert ([x] + q)[1..] == q;
  }

  lemma RelistEmptied(f: Central, c: ClassId, classOf: map<SpanPtr, ClassId>, lists: Lists, lists': Lists, x: SpanPtr)
    requires ListedClass(f, c, classOf, lists) && x in classOf && classOf[x] == c && OnlySpan(lists, lists', x)
    requires At(lists, InSpan(x)) != [] && At(lists', InSpan(x)) == []
    ensures ListedClass(f.(nonempty := Without(f.nonempty, x), empty := [x] + f.empty, counter := f.counter - |At(lists, InSpan(x))|), c, classOf, lists')
  {
    hide Without, SumFree;
    WithoutMembers(f.nonempty, x);
    SumFreeWithout(f.nonempty, lists, x);
    SumFreeFrame(Without(f.nonempty, x), lists, lists');
  }

  /** A move between span x and a chain of thread t. */
  ghost predicate SpanMove(lists: Lists, a: Loc, n: int, b: Loc, x: SpanPtr, t: Thread) {
    && 0 <= n <= |At(lists, a)|
    && ((a == InSpan(x) && b == Hand(t)) || (a == Rest(t) && b == InSpan(x) && forall o | o in At(lists, a)[..n] :: o.span == x))
  }

  ghost function Gain(a: Loc, n: int): int { if a.InSpan? then -n else n }

  lemma SpanShift(lists: Lists, a: Loc, n: int, b: Loc, x: SpanPtr, t: Thread)
    requires SpanMove(lists, a, n, b, x, t)
    ensures var lists' := Shift(lists, a, n, b);
            && (forall y | y != x :: At(lists', InSpan(y)) == At(lists, InSpan(y)))
            && |At(lists', InSpan(x))| == |At(lists, InSpan(x))| + Gain(a, n)
            && SameSlots(lists, lists')
            && (forall u: nat | u != t || b != Hand(t) :: At(lists', Hand(u)) == At(lists, Hand(u)))
  {
  }

  lemma SpanFits(classOf: map<SpanPtr, ClassId>, pcs: seq<PC>, lists: Lists, a: Loc, n: int, b: Loc, x: SpanPtr, t: nat)
    requires AllFit(classOf, pcs, lists) && SpanMove(lists, a, n, b, x, t) && t < |pcs| && x in classOf
    requires a == InSpan(x) ==> HandClass(pcs[t]) == classOf[x]
    ensures AllFit(classOf, pcs, Shift(lists, a, n, b))
  {
    hide AllFit, HandClass, RestClass;
    assert pcs[t := pcs[t]] == pcs;
    ShiftFits(classOf, pcs, lists, a, n, b, t, pcs[t]);
  }

  lemma SpanCounts(g: Config, classOf: map<SpanPtr, ClassId>, refcount: map<SpanPtr, int>, lists: Lists, lists': Lists, x: SpanPtr, gain: int)
    requires CountsOk(g, classOf, refcount, lists) && x in classOf && |At(lists', InSpan(x))| == |At(lists, InSpan(x))| + gain
    requires forall y | y != x :: At(lists', InSpan(y)) == At(lists, InSpan(y))
    ensures x in refcount && CountsOk(g, classOf, refcount[x := refcount[x] - gain], lists')
  {
  }

  lemma SlotsFrame(g: Config, centrals: seq<Central>, centrals': seq<Central>, lists: Lists, lists': Lists)
    requires SlotsOk(g, centrals, lists) && SameSlots(lists, lists') && |centrals'| == |centrals|
    requires forall c | 0 <= c < |centrals| :: centrals'[c].used == centrals[c].used
    ensures SlotsOk(g, centrals', lists')
  {
  }

  /** Objects moved between a span and a chain of a thread. */
  lemma SpanStep(g: Config, s: State, total: int, t: nat, a: Loc, n: int, b: Loc, x: SpanPtr, f: Central)
    requires Inv(g, s, total) && t < |s.pcs| && SpanMove(s.lists, a, n, b, x, t) && x in s.classOf && s.classOf[x] < |s.centrals| && x in s.refcount
    requires a == InSpan(x) ==> HandClass(s.pcs[t]) == s.classOf[x] && !Full(s.pcs[t])
    requires var f0, free := s.centrals[s.classOf[x]], |At(s.lists, InSpan(x))|;
             f == Relisted(f0, x, free, free + Gain(a, n)).(counter := f0.counter + Gain(a, n))
    ensures Inv(g, s.(centrals := s.centrals[s.classOf[x] := f], refcount := s.refcount[x := s.refcount[x] - Gain(a, n)],
                      lists := Shift(s.lists, a, n, b), places := Moved(s.places, At(s.lists, a)[..n], b)), total)
  {
    hide LocksOk, Partition, Carves, SlotsOk, FlightsOk, PcsInRange, CachesOk, AllFit, FullOk, ListedClass, CountsOk, HandClass, RestClass, Full, Shift, Moved;
    var objs, c, lists' := At(s.lists, a)[..n], s.classOf[x], Shift(s.lists, a, n, b);
    ShiftPartition(s.lists, s.places, a, n, b);
    MovedCarves(g, s.classOf, s.places, objs, b);
    SpanShift(s.lists, a, n, b, x, t);
    SpanFits(s.classOf, s.pcs, s.lists, a, n, b, x, t);
    SpanCounts(g, s.classOf, s.refcount, s.lists, lists', x, Gain(a, n));
    RelistedOk(s.centrals[c], c, s.classOf, s.lists, lists', x);
    forall d | 0 <= d < |s.centrals| && d != c ensures ListedClass(s.centrals[d], d, s.classOf, lists') {
      ListedOther(s.centrals[d], d, s.classOf, s.classOf, s.lists, lists', x);
    }
    SameCaches(g, s.centrals, s.pcs, total, c, f, t);
    SlotsFrame(g, s.centrals, s.centrals[c := f], s.lists, lists');
    assert s.pcs[t := s.pcs[t]] == s.pcs;
    SpanFull(g, s.lists, lists', s.pcs, t, b);
  }

  lemma SpanFull(g: Config, lists: Lists, lists': Lists, pcs: seq<PC>, t: nat, b: Loc)
    requires FullOk(g, lists, pcs) && t < |pcs| && (b == Hand(t) ==> !Full(pcs[t]))
    requires forall u: nat | u != t || b != Hand(t) :: At(lists', Hand(u)) == At(lists, Hand(u))
    ensures FullOk(g, lists', pcs)
  {
    hide HandClass, Full;
  }

  lemma SameCaches(g: Config, centrals: seq<Central>, pcs: seq<PC>, total: int, c: nat, f: Central, t: nat)
    requires CachesOk(g, centrals, pcs, total) && c < |centrals| && t < |pcs|
    requires f.used == centrals[c].used && f.cacheSize == centrals[c].cacheSize
    ensures CachesOk(g, centrals[c := f], pcs, total)
  {
    hide Credit;
    CachesStep(g, centrals, pcs, total, c, f, t, pcs[t]);
    assert pcs[t := pcs[t]] == pcs;
  }

  lemma FrontKnown(g: Config, s: State, total: int, c: ClassId)
    requires Inv(g, s, total) && c < |s.centrals|
    ensures s.centrals[c].nonempty != [] ==>
      var x := s.centrals[c].nonempty[0];
      x in s.classOf && s.classOf[x] == c && x in s.refcount && At(s.lists, InSpan(x)) != []
  {
    hide LocksOk, CachesOk, SlotsOk, PcsInRange, FullOk, AllFit, Partition, Carves;
    if s.centrals[c].nonempty != [] {
      assert s.centrals[c].nonempty[0] in s.centrals[c].nonempty;
    }
  }

  lemma FetchStep(g: Config, s: State, total: int, t: nat, c: ClassId, n: nat, populated: bool)
    requires Inv(g, s, total) && t < |s.pcs| && s.pcs[t] == Fetch(c, n, populated) && c < |s.centrals|
    ensures s.centrals[c].nonempty != [] ==> s.centrals[c].nonempty[0] in s.refcount
    ensures Inv(g, DoFetch(s, t, c, n, populated), total)
  {
    hide Inv, CachesOk, LocksOk, SlotsOk, Shift, SumCredit;
    Facts(g, s, total);
    FrontKnown(g, s, total, c);
    Empties(g, s, total, t);
    var f, got := s.centrals[c], At(s.lists, Hand(t));
    if |got| < n && f.nonempty != [] {
      var x := f.nonempty[0];
      var objs := At(s.lists, InSpan(x));
      var k := if n - |got| < |objs| then n - |got| else |objs|;
      var f1 := if k == |objs| then f.(nonempty := f.nonempty[1..], empty := [x] + f.empty) else f;
      assert Without(f.nonempty, x) == f.nonempty[1..];
      SpanStep(g, s, total, t, InSpan(x), k, Hand(t), x, f1.(counter := f.counter - k));
    } else if got == [] && !populated {
      LeaveLocks(s, t, ClassLock(c), Grow(c, n));
      ControlStep(g, s, total, t, Grow(c, n), s.holder - {ClassLock(c)});
    } else {
      LeaveLocks(s, t, ClassLock(c), Idle);
      NoCredit(g, s, total, t, Idle);
      SlotsFrame(g, s.centrals, s.centrals, s.lists, s.lists[Hand(t) := []]);
      HandOutStep(g, s, total, t, s.holder - {ClassLock(c)}, s.centrals, Hand(t));
    }
  }

  /** The object a thread gives back next, and its span. */
  lemma RestKnown(g: Config, s: State, total: int, t: nat)
    requires Inv(g, s, total) && t < |s.pcs| && s.pcs[t].Release?
    ensures At(s.lists, Rest(t)) != [] ==>
      var o := At(s.lists, Rest(t))[0];
      && o.span in s.classOf && s.classOf[o.span] == s.pcs[t].l && o in s.places && s.places[o] == Rest(t)
      && o.index < g.capacity[s.pcs[t].l] && o !in At(s.lists, InSpan(o.span))
  {
    hide LocksOk, SlotsOk, PcsInRange, FullOk, AllListed, CachesOk, CountsOk, FlightsOk, AllFit, Partition, Carves;
    if At(s.lists, Rest(t)) != [] {
      RestObject(g, s.classOf, s.pcs, s.lists, s.places, t);
    }
  }

  lemma RestObject(g: Config, classOf: map<SpanPtr, ClassId>, pcs: seq<PC>, lists: Lists, places: Places, t: nat)
    requires AllFit(classOf, pcs, lists) && Partition(lists, places) && Carves(g, classOf, places)
    requires t < |pcs| && pcs[t].Release? && At(lists, Rest(t)) != []
    ensures
      var o := At(lists, Rest(t))[0];
      && o.span in classOf && classOf[o.span] == pcs[t].l && o in places && places[o] == Rest(t)
      && pcs[t].l < |g.capacity| && o.index < g.capacity[pcs[t].l] && o !in At(lists, InSpan(o.span))
  {
    hide Distinct;
    var o := At(lists, Rest(t))[0];
    assert o in lists[Rest(t)];
    assert Fits(classOf, pcs, Rest(t), o);
  }

  lemma ReleasePush(g: Config, s: State, total: int, t: nat, l: ClassId, after: After)
    requires Inv(g, s, total) && t < |s.pcs| && s.pcs[t] == Release(l, after) && l < |s.centrals| == |g.capacity|
    requires At(s.lists, Rest(t)) != [] && At(s.lists, Rest(t))[0].span in s.refcount && s.refcount[At(s.lists, Rest(t))[0].span] != 1
    ensures Inv(g, DoRelease(g, s, t, l, after), total)
  {
    hide Inv, Shift;
    RestKnown(g, s, total, t);
    var f, x := s.centrals[l], At(s.lists, Rest(t))[0].span;
    var f1 := if At(s.lists, InSpan(x)) == [] then f.(nonempty := [x] + f.nonempty, empty := Without(f.empty, x)) else f;
    SpanStep(g, s, total, t, Rest(t), 1, InSpan(x), x, f1.(counter := f.counter + 1));
  }

  lemma ReleaseEnd(g: Config, s: State, total: int, t: nat, l: ClassId, after: After)
    requires Inv(g, s, total) && t < |s.pcs| && s.pcs[t] == Release(l, after) && l < |s.centrals| == |g.capacity|
    requires At(s.lists, Rest(t)) == []
    ensures Inv(g, DoRelease(g, s, t, l, after), total)
  {
    hide Inv, CachesOk, LocksOk, SlotsOk;
    Facts(g, s, total);
    Empties(g, s, total, t);
    var p := if after.Resume? then Back(after.c, true, true) else Idle;
    LeaveLocks(s, t, ClassLock(l), p);
    ControlStep(g, s, total, t, p, s.holder - {ClassLock(l)});
  }

  /** When only one object of a span is out and it comes back, no other object of the span
      is anywhere but in the span. */
  lemma NoneOut(g: Config, s: State, total: int, t: nat)
    requires Inv(g, s, total) && t < |s.pcs| && s.pcs[t].Release? && At(s.lists, Rest(t)) != []
    requires At(s.lists, Rest(t))[0].span in s.refcount && s.refcount[At(s.lists, Rest(t))[0].span] == 1
    ensures forall o | o in s.places && o.span == At(s.lists, Rest(t))[0].span ::
      o == At(s.lists, Rest(t))[0] || s.places[o] == InSpan(o.span)
  {
    hide LocksOk, SlotsOk, PcsInRange, FullOk, AllListed, CachesOk, AllFit, FlightsOk;
    RestKnown(g, s, total, t);
    var o := At(s.lists, Rest(t))[0];
    SpanKnown(g, s, total, o.span);
    FreeDistinct(s.lists, s.places, InSpan(o.span));
    LastObject(At(s.lists, InSpan(o.span)), o.span, g.capacity[s.classOf[o.span]], o);
  }

  lemma FreeDistinct(lists: Lists, places: Places, l: Loc)
    requires Partition(lists, places)
    ensures Distinct(At(lists, l)) && forall o | o in At(lists, l) :: o in places && places[o] == l
  {
  }

  lemma RetireFits(classOf: map<SpanPtr, ClassId>, pcs: seq<PC>, lists: Lists, places: Places, x: SpanPtr, t: nat, p: PC)
    requires AllFit(classOf, pcs, lists) && Partition(lists, places) && t < |pcs| && At(lists, Rest(t)) != []
    requires HandClass(p) == HandClass(pcs[t]) && RestClass(p) == RestClass(pcs[t])
    requires forall o | o in places && o.span == x :: o == At(lists, Rest(t))[0] || places[o] == InSpan(x)
    ensures AllFit(classOf - {x}, pcs[t := p], lists[InSpan(x) := []][Rest(t) := At(lists, Rest(t))[1..]])
  {
    hide HandClass, RestClass, Partition, Fits;
    var rest := At(lists, Rest(t));
    var lists' := lists[InSpan(x) := []][Rest(t) := rest[1..]];
    forall l, o | l in lists' && o in lists'[l] ensures Fits(classOf - {x}, pcs[t := p], l, o) {
      RetireFit(classOf, pcs, lists, places, x, t, p, l, o);
    }
  }

  lemma RetireFit(classOf: map<SpanPtr, ClassId>, pcs: seq<PC>, lists: Lists, places: Places, x: SpanPtr, t: nat, p: PC, l: Loc, o: Obj)
    requires AllFit(classOf, pcs, lists) && Partition(lists, places) && t < |pcs| && At(lists, Rest(t)) != []
    requires HandClass(p) == HandClass(pcs[t]) && RestClass(p) == RestClass(pcs[t])
    requires forall o | o in places && o.span == x :: o == At(lists, Rest(t))[0] || places[o] == InSpan(x)
    requires l != InSpan(x) && o in At(lists, l) && (l == Rest(t) ==> o in At(lists, l)[1..])
    ensures Fits(classOf - {x}, pcs[t := p], l, o)
  {
    hide HandClass, RestClass;
    var rest := At(lists, Rest(t));
    DistinctParts(rest, 1, []);
    assert Fits(classOf, pcs, l, o) && places[o] == l;
    assert rest[0] in rest && places[rest[0]] == Rest(t);
    assert l == Rest(t) ==> o != rest[0] by {
      assert rest[0] in rest[..1];
    }
    assert o.span != x;
  }

  lemma RetireListed(f: Central, c: ClassId, classOf: map<SpanPtr, ClassId>, lists: Lists, lists': Lists, x: SpanPtr)
    requires ListedClass(f, c, classOf, lists) && x in classOf && classOf[x] == c && OnlySpan(lists, lists', x)
    ensures ListedClass(f.(nonempty := Without(f.nonempty, x), empty := Without(f.empty, x), numSpans := f.numSpans - 1,
                           counter := f.counter - |At(lists, InSpan(x))|), c, classOf - {x}, lists')
  {
    hide Without, SumFree;
    WithoutMembers(f.nonempty, x);
    WithoutMembers(f.empty, x);
    SumFreeWithout(f.nonempty, lists, x);
    SumFreeWithout(f.empty, lists, x);
    SumFreeFrame(Without(f.nonempty, x), lists, lists');
  }

  lemma RetireAllListed(centrals: seq<Central>, l: ClassId, classOf: map<SpanPtr, ClassId>, lists: Lists, lists': Lists, x: SpanPtr, capacity: int)
    requires AllListed(centrals, classOf, lists) && l < |centrals| && x in classOf && classOf[x] == l
    requires OnlySpan(lists, lists', x) && |At(lists, InSpan(x))| == capacity - 1
    ensures var f := centrals[l];
            AllListed(centrals[l := f.(nonempty := Without(f.nonempty, x), empty := Without(f.empty, x), numSpans := f.numSpans - 1,
                                       counter := f.counter + 1 - capacity)], classOf - {x}, lists')
  {
    hide ListedClass, Without;
    assert ListedClass(centrals[l], l, classOf, lists);
    RetireListed(centrals[l], l, classOf, lists, lists', x);
    forall d | 0 <= d < |centrals| && d != l ensures ListedClass(centrals[d], d, classOf - {x}, lists') {
      ListedOther(centrals[d], d, classOf, classOf - {x}, lists, lists', x);
    }
  }

  lemma RetireCarves(g: Config, classOf: map<SpanPtr, ClassId>, places: Places, x: SpanPtr)
    requires Carves(g, classOf, places)
    ensures Carves(g, classOf - {x}, map o | o in places && o.span != x :: places[o])
  {
  }

  lemma RetireCounts(g: Config, classOf: map<SpanPtr, ClassId>, refcount: map<SpanPtr, int>, lists: Lists, lists': Lists, x: SpanPtr)
    requires CountsOk(g, classOf, refcount, lists) && OnlySpan(lists, lists', x)
    ensures CountsOk(g, classOf - {x}, refcount - {x}, lists')
  {
  }

  lemma RetireFlights(classOf: map<SpanPtr, ClassId>, heap: set<SpanPtr>, pcs: seq<PC>, x: SpanPtr, t: nat, p: PC)
    requires FlightsOk(classOf, heap, pcs) && t < |pcs| && x in classOf && Flight(pcs[t]) == NULL && Flight(p) == x
    ensures FlightsOk(classOf - {x}, heap, pcs[t := p])
  {
    hide Flight;
  }

  /** The last object comes home: the span leaves the lists, on its way to the page heap. */
  lemma ReleaseRetire(g: Config, s: State, total: int, t: nat, l: ClassId, after: After)
    requires Inv(g, s, total) && t < |s.pcs| && s.pcs[t] == Release(l, after) && l < |s.centrals| == |g.capacity|
    requires At(s.lists, Rest(t)) != [] && At(s.lists, Rest(t))[0].span in s.refcount && s.refcount[At(s.lists, Rest(t))[0].span] == 1
    ensures Inv(g, DoRelease(g, s, t, l, after), total)
  {
    hide LocksOk, Partition, Carves, SlotsOk, FlightsOk, PcsInRange, CachesOk, AllFit, FullOk, AllListed, CountsOk, Without, SumCache, SumCredit, ConfigOk;
    RestKnown(g, s, total, t);
    Empties(g, s, total, t);
    var rest, f := At(s.lists, Rest(t)), s.centrals[l];
    var x, p := rest[0].span, Drop(l, rest[0].span, after);
    NoneOut(g, s, total, t);
    SpanKnown(g, s, total, x);
    var lists' := s.lists[InSpan(x) := []][Rest(t) := rest[1..]];
    RetirePartition(s.lists, s.places, x, Rest(t));
    RetireFits(s.classOf, s.pcs, s.lists, s.places, x, t, p);
    RetireCarves(g, s.classOf, s.places, x);
    RetireCounts(g, s.classOf, s.refcount, s.lists, lists', x);
    var f' := f.(nonempty := Without(f.nonempty, x), empty := Without(f.empty, x), numSpans := f.numSpans - 1,
                 counter := f.counter + 1 - g.capacity[l]);
    RetireAllListed(s.centrals, l, s.classOf, s.lists, lists', x, g.capacity[l]);
    CachesSame(g, s, total, t, p, l, f');
    SlotsFrame(g, s.centrals, s.centrals[l := f'], s.lists, lists');
    RetireFlights(s.classOf, s.heap, s.pcs, x, t, p);
    LeaveLocks(s, t, ClassLock(l), p);
    FullStepSame(g, s, total, t, p, lists');
    PcRange(s.pcs, |s.centrals|, t, p);
  }

  lemma CachesSame(g: Config, s: State, total: int, t: nat, p: PC, c: ClassId, f: Central)
    requires CachesOk(g, s.centrals, s.pcs, total) && t < |s.pcs| && c < |s.centrals| && Credit(p) <= Credit(s.pcs[t])
    requires f.used == s.centrals[c].used && f.cacheSize == s.centrals[c].cacheSize
    ensures CachesOk(g, s.centrals[c := f], s.pcs[t := p], total)
  {
    hide Credit;
    CachesStep(g, s.centrals, s.pcs, total, c, f, t, p);
  }

  lemma FullStepSame(g: Config, s: State, total: int, t: nat, p: PC, lists': Lists)
    requires FullOk(g, s.lists, s.pcs) && t < |s.pcs| && Full(p) == Full(s.pcs[t]) && HandClass(p) == HandClass(s.pcs[t])
    requires forall u: nat :: At(lists', Hand(u)) == At(s.lists, Hand(u))
    ensures FullOk(g, lists', s.pcs[t := p])
  {
    hide Full, HandClass;
    assert FullAt(g, s.lists, t, s.pcs[t]);
    FullStep(g, s.lists, lists', s.pcs, t, p);
  }

  lemma ReleaseStep(g: Config, s: State, total: int, t: nat, l: ClassId, after: After)
    requires Inv(g, s, total) && t < |s.pcs| && s.pcs[t] == Release(l, after) && l < |s.centrals|
    ensures |s.centrals| == |g.capacity| && (At(s.lists, Rest(t)) != [] ==> At(s.lists, Rest(t))[0].span in s.refcount)
    ensures Inv(g, DoRelease(g, s, t, l, after), total)
  {
    hide Inv, DoRelease;
    CacheFacts(g, s, total, l);
    RestKnown(g, s, total, t);
    if At(s.lists, Rest(t)) == [] {
      ReleaseEnd(g, s, total, t, l, after);
    } else {
      SpanKnown(g, s, total, At(s.lists, Rest(t))[0].span);
      if s.refcount[At(s.lists, Rest(t))[0].span] == 1 {
        ReleaseRetire(g, s, total, t, l, after);
      } else {
        ReleasePush(g, s, total, t, l, after);
      }
    }
  }

  function DoDropping(s: State, t: Thread, l: ClassId, x: SpanPtr, after: After): State
    requires t < |s.pcs|
  {
    Leave(s.(heap := s.heap - {x}), t, HeapLock, Return(l, after))
  }

  function DoObtain(s: State, t: Thread, c: ClassId, n: nat, x: SpanPtr): State
    requires t < |s.pcs|
  {
    Leave(if x == NULL then s else s.(heap := s.heap + {x}), t, HeapLock, Grown(c, n, x))
  }

  /** A step that changes what the page heap has handed out. */
  lemma HeapStep(g: Config, s: State, total: int, t: nat, p: PC, heap: set<SpanPtr>)
    requires Inv(g, s, total) && t < |s.pcs| && Held(s.pcs[t]) == {HeapLock} && Held(p) == {} && InRange(p, |s.centrals|)
    requires HandClass(p) == HandClass(s.pcs[t]) && RestClass(p) == RestClass(s.pcs[t]) && Credit(p) == Credit(s.pcs[t]) && Full(p) == Full(s.pcs[t])
    requires FlightsOk(s.classOf, heap, s.pcs[t := p])
    ensures Inv(g, s.(heap := heap, pcs := s.pcs[t := p], holder := s.holder - {HeapLock}), total)
  {
    hide LocksOk, Partition, AllFit, Carves, SlotsOk, CountsOk, AllListed, FlightsOk, PcsInRange, HandClass, RestClass, Flight, Credit, InRange, Full, FullOk;
    LeaveLocks(s, t, HeapLock, p);
    PcFits(s.classOf, s.pcs, s.lists, t, p);
    PcRange(s.pcs, |s.centrals|, t, p);
    SumCreditUpdate(s.pcs, t, p);
    FullStepSame(g, s, total, t, p, s.lists);
  }

  lemma DroppingStep(g: Config, s: State, total: int, t: nat, l: ClassId, x: SpanPtr, after: After)
    requires Inv(g, s, total) && t < |s.pcs| && s.pcs[t] == Dropping(l, x, after)
    ensures Inv(g, DoDropping(s, t, l, x, after), total)
  {
    hide LocksOk, Partition, AllFit, SlotsOk, CountsOk, AllListed, CachesOk, FullOk;
    Empties(g, s, total, t);
    HeapStep(g, s, total, t, Return(l, after), s.heap - {x});
  }

  lemma ObtainStep(g: Config, s: State, total: int, t: nat, c: ClassId, n: nat, x: SpanPtr)
    requires Inv(g, s, total) && t < |s.pcs| && s.pcs[t] == Growing(c, n) && (x == NULL || x !in s.heap)
    ensures Inv(g, DoObtain(s, t, c, n, x), total)
  {
    hide LocksOk, Partition, AllFit, Carves, SlotsOk, CountsOk, AllListed, CachesOk, FullOk;
    Empties(g, s, total, t);
    HeapStep(g, s, total, t, Grown(c, n, x), if x == NULL then s.heap else s.heap + {x});
  }

  lemma NewListed(f: Central, c: ClassId, classOf: map<SpanPtr, ClassId>, lists: Lists, lists': Lists, x: SpanPtr)
    requires ListedClass(f, c, classOf, lists) && x !in classOf && OnlySpan(lists, lists', x) && At(lists', InSpan(x)) != []
    ensures ListedClass(f.(nonempty := [x] + f.nonempty, numSpans := f.numSpans + 1, counter := f.counter + |At(lists', InSpan(x))|),
                        c, classOf[x := c], lists')
  {
    hide SumFree;
    SumFreeFrame(f.nonempty, lists, lists');
    SumFreeFront(x, f.nonempty, lists');
  }

  lemma NewFits(classOf: map<SpanPtr, ClassId>, pcs: seq<PC>, lists: Lists, x: SpanPtr, c: ClassId, q: seq<Obj>, t: nat, p: PC)
    requires AllFit(classOf, pcs, lists) && t < |pcs| && x !in classOf && forall o | o in q :: o.span == x
    requires HandClass(p) == HandClass(pcs[t]) || At(lists, Hand(t)) == []
    requires RestClass(p) == RestClass(pcs[t]) || At(lists, Rest(t)) == []
    ensures AllFit(classOf[x := c], pcs[t := p], lists[InSpan(x) := q])
  {
    hide HandClass, RestClass;
    var lists' := lists[InSpan(x) := q];
    forall l, o | l in lists' && o in lists'[l] ensures Fits(classOf[x := c], pcs[t := p], l, o) {
      if l != InSpan(x) {
        assert Fits(classOf, pcs, l, o);
      }
    }
  }

  lemma NewCarves(g: Config, classOf: map<SpanPtr, ClassId>, places: Places, x: SpanPtr, c: ClassId)
    requires Carves(g, classOf, places) && x !in classOf && x != NULL && c < |g.capacity|
    ensures forall o | o in places :: o.span != x
    ensures Carves(g, classOf[x := c], places + map o | o in Carved(x, g.capacity[c]) :: InSpan(x))
  {
    var q := Carved(x, g.capacity[c]);
    forall o: Obj | o.span == x && o.index < g.capacity[c] ensures o in q {
      assert q[o.index] == o;
    }
  }

  lemma NewCounts(g: Config, classOf: map<SpanPtr, ClassId>, refcount: map<SpanPtr, int>, lists: Lists, lists': Lists, x: SpanPtr, c: ClassId)
    requires CountsOk(g, classOf, refcount, lists) && OnlySpan(lists, lists', x) && c < |g.capacity| && |At(lists', InSpan(x))| == g.capacity[c]
    ensures CountsOk(g, classOf[x := c], refcount[x := 0], lists')
  {
  }

  lemma NewFlights(classOf: map<SpanPtr, ClassId>, heap: set<SpanPtr>, pcs: seq<PC>, x: SpanPtr, c: ClassId, t: nat, p: PC)
    requires FlightsOk(classOf, heap, pcs) && t < |pcs| && Flight(pcs[t]) == x != NULL && Flight(p) == NULL
    ensures FlightsOk(classOf[x := c], heap, pcs[t := p]) && x !in classOf
  {
    hide Flight;
  }

  /** A span in no class has no list. */
  lemma UnknownEmpty(classOf: map<SpanPtr, ClassId>, pcs: seq<PC>, lists: Lists, x: SpanPtr)
    requires AllFit(classOf, pcs, lists)
    ensures At(lists, InSpan(x)) != [] ==> x in classOf
  {
    if At(lists, InSpan(x)) != [] {
      var o := At(lists, InSpan(x))[0];
      assert o in lists[InSpan(x)] && Fits(classOf, pcs, InSpan(x), o);
    }
  }

  lemma PopulatingStep(g: Config, s: State, total: int, t: nat, c: ClassId, n: nat, x: SpanPtr)
    requires Inv(g, s, total) && t < |s.pcs| && s.pcs[t] == Populating(c, n, x) && c < |s.centrals|
    ensures |s.centrals| == |g.capacity| && Inv(g, DoPopulating(g, s, t, c, n, x), total)
  {
    hide LocksOk, Partition, Carves, SlotsOk, FlightsOk, PcsInRange, CachesOk, AllFit, FullOk, ListedClass, CountsOk;
    CacheFacts(g, s, total, c);
    Empties(g, s, total, t);
    var f, p := s.centrals[c], Fetch(c, n, true);
    GotoLocks(s, t, p);
    if x == NULL {
      ControlStep(g, s, total, t, p, s.holder);
    } else {
      var q := Carved(x, g.capacity[c]);
      var lists', classOf' := s.lists[InSpan(x) := q], s.classOf[x := c];
      NewFlights(s.classOf, s.heap, s.pcs, x, c, t, p);
      UnknownEmpty(s.classOf, s.pcs, s.lists, x);
      NewCarves(g, s.classOf, s.places, x, c);
      CarvePartition(s.lists, s.places, x, g.capacity[c]);
      NewFits(s.classOf, s.pcs, s.lists, x, c, q, t, p);
      NewCounts(g, s.classOf, s.refcount, s.lists, lists', x, c);
      NewListed(f, c, s.classOf, s.lists, lists', x);
      forall d | 0 <= d < |s.centrals| && d != c ensures ListedClass(s.centrals[d], d, classOf', lists') {
        ListedOther(s.centrals[d], d, s.classOf, classOf', s.lists, lists', x);
      }
      var f' := f.(nonempty := [x] + f.nonempty, numSpans := f.numSpans + 1, counter := f.counter + g.capacity[c]);
      CachesSame(g, s, total, t, p, c, f');
      SlotsFrame(g, s.centrals, s.centrals[c := f'], s.lists, lists');
      FullStep(g, s.lists, lists', s.pcs, t, p);
      PcRange(s.pcs, |s.centrals|, t, p);
    }
  }

  // ---- Runs ----

  /** What the code relies on when it looks an object or a span up. */
  ghost predicate Sound(g: Config, s: State) {
    && |s.centrals| == |g.batch| == |g.capacity| == |g.maxCache| && PcsInRange(s.pcs, |s.centrals|)
    && (forall t | 0 <= t < |s.pcs| && s.pcs[t].Release? && At(s.lists, Rest(t)) != [] :: At(s.lists, Rest(t))[0].span in s.refcount)
    && (forall c | 0 <= c < |s.centrals| && s.centrals[c].nonempty != [] :: s.centrals[c].nonempty[0] in s.refcount)
  }

  function Apply(g: Config, s: State, e: Event): State
    requires Sound(g, s) && Enabled(s, e)
  {
    var t := e.t;
    var p := s.pcs[t];
    assert InRange(p, |s.centrals|);
    match e
    case CallInsert(_, c, chain) =>
      s.(pcs := s.pcs[t := Insert(c)], lists := s.lists[Hand(t) := chain], places := Moved(s.places, chain, Hand(t)))
    case CallRemove(_, c, n) => Goto(s, t, Remove(c, n))
    case Take(_) => Acquire(s, t, Wanted(p), Entered(p))
    case Steal(_, v) => DoSteal(s, t, p.c, p.force, v)
    case Obtain(_, x) => DoObtain(s, t, p.c, p.n, x)
    case Work(_) =>
      match p
      case Inserting(c) => DoInserting(g, s, t, c)
      case Shrink(c, v, force) => DoShrink(s, t, c, v, force)
      case Resumed(c, force, won) => DoResumed(g, s, t, c, force, won)
      case Release(l, after) => DoRelease(g, s, t, l, after)
      case Dropping(l, x, after) => DoDropping(s, t, l, x, after)
      case Removing(c, n) => DoRemoving(g, s, t, c, n)
      case Fetch(c, n, populated) => DoFetch(s, t, c, n, populated)
      case Populating(c, n, x) => DoPopulating(g, s, t, c, n, x)
      case _ => s
  }

  lemma InvSound(g: Config, s: State, total: int)
    requires Inv(g, s, total)
    ensures Sound(g, s)
  {
    hide LocksOk, Partition, Carves, CachesOk, FullOk, Inv, AllFit, CountsOk, AllListed, FlightsOk, SlotsOk;
    Facts(g, s, total);
    Shapes(g, s, total);
    forall t | 0 <= t < |s.pcs| && s.pcs[t].Release? && At(s.lists, Rest(t)) != []
      ensures At(s.lists, Rest(t))[0].span in s.refcount
    {
      RestKnown(g, s, total, t);
      SpanKnown(g, s, total, At(s.lists, Rest(t))[0].span);
    }
    forall c | 0 <= c < |s.centrals| && s.centrals[c].nonempty != [] ensures s.centrals[c].nonempty[0] in s.refcount {
      FrontKnown(g, s, total, c);
    }
  }

  lemma Shapes(g: Config, s: State, total: int)
    requires Inv(g, s, total)
    ensures |s.centrals| == |g.batch| == |g.capacity| == |g.maxCache| && PcsInRange(s.pcs, |s.centrals|)
  {
    hide LocksOk, Partition, Carves, FullOk, AllFit, CountsOk, AllListed, FlightsOk, PcsInRange;
  }

  /** Every step of every thread keeps the invariant. */
  lemma StepKeeps(g: Config, s: State, total: int, e: Event)
    requires Inv(g, s, total) && Sound(g, s) && Enabled(s, e)
    ensures Inv(g, Apply(g, s, e), total)
  {
    hide Inv, DoInserting, DoShrink, DoResumed, DoRelease, DoDropping, DoRemoving, DoFetch, DoPopulating, DoSteal, DoObtain;
    var t := e.t;
    var p := s.pcs[t];
    assert InRange(p, |s.centrals|);
    match e
    case CallInsert(_, c, chain) => CallInsertStep(g, s, total, t, c, chain);
    case CallRemove(_, c, n) => CallRemoveStep(g, s, total, t, c, n);
    case Take(_) => TakeStep(g, s, total, t);
    case Steal(_, v) => StealStep(g, s, total, t, p.c, p.force, v);
    case Obtain(_, x) => ObtainStep(g, s, total, t, p.c, p.n, x);
    case Work(_) =>
      match p {
        case Inserting(c) => InsertingStep(g, s, total, t, c);
        case Shrink(c, v, force) => ShrinkStep(g, s, total, t, c, v, force);
        case Resumed(c, force, won) => ResumedStep(g, s, total, t, c, force, won);
        case Release(l, after) => ReleaseStep(g, s, total, t, l, after);
        case Dropping(l, x, after) => DroppingStep(g, s, total, t, l, x, after);
        case Removing(c, n) => RemovingStep(g, s, total, t, c, n);
        case Fetch(c, n, populated) => FetchStep(g, s, total, t, c, n, populated);
        case Populating(c, n, x) => PopulatingStep(g, s, total, t, c, n, x);
        case _ =>
      }
  }

  const START_CACHE: int := 16

  function StartCentral(limit: int): Central {
    Central([], [], 0, 0, 0, if START_CACHE < limit then START_CACHE else limit)
  }

  /** No spans, empty caches of the starting size, and all threads idle. */
  function Start(g: Config, threads: nat): State {
    State(seq(|g.maxCache|, c requires 0 <= c < |g.maxCache| => StartCentral(g.maxCache[c])),
          map[], map[], map[], map[], {}, map[], seq(threads, t => Idle))
  }

  lemma {:induction false} NoCredits(pcs: seq<PC>)
    requires forall t | 0 <= t < |pcs| :: pcs[t] == Idle
    ensures SumCredit(pcs) == 0
  {
    if pcs != [] {
      NoCredits(pcs[1..]);
    }
  }

  lemma StartInv(g: Config, threads: nat)
    requires ConfigOk(g)
    ensures Inv(g, Start(g, threads), SumCache(Start(g, threads).centrals))
  {
    NoCredits(Start(g, threads).pcs);
  }

  ghost predicate Reaches(g: Config, s: State, es: seq<Event>, s': State)
    decreases |es|
  {
    if es == [] then s' == s
    else Sound(g, s) && Enabled(s, es[0]) && Reaches(g, Apply(g, s, es[0]), es[1..], s')
  }

  lemma {:induction false} RunKeeps(g: Config, s: State, total: int, es: seq<Event>, s': State)
    requires Inv(g, s, total) && Reaches(g, s, es, s')
    ensures Inv(g, s', total)
    decreases |es|
  {
    hide Inv, Apply, Enabled, Sound;
    if es != [] {
      StepKeeps(g, s, total, es[0]);
      RunKeeps(g, Apply(g, s, es[0]), total, es[1..], s');
    }
  }

  /** Whatever a thread may do next is a further step of the run: nothing the code relies on
      when it looks up an object or a span ever fails. */
  lemma NextStep(g: Config, threads: nat, es: seq<Event>, s: State, e: Event)
    requires ConfigOk(g) && Reaches(g, Start(g, threads), es, s) && Enabled(s, e)
    ensures Sound(g, s) && Reaches(g, Start(g, threads), es + [e], Apply(g, s, e))
  {
    hide Reaches, Start, ConfigOk, Inv, Apply, Sound;
    StartInv(g, threads);
    var total := SumCache(Start(g, threads).centrals);
    RunKeeps(g, Start(g, threads), total, es, s);
    InvSound(g, s, total);
    ReachesOn(g, Start(g, threads), es, s, e);
  }

  lemma {:induction false} ReachesOn(g: Config, s: State, es: seq<Event>, s': State, e: Event)
    requires Reaches(g, s, es, s') && Sound(g, s') && Enabled(s', e)
    ensures Reaches(g, s, es + [e], Apply(g, s', e))
    decreases |es|
  {
    hide Apply, Enabled, Sound;
    if es == [] {
      assert es + [e] == [e];
      assert Reaches(g, Apply(g, s', e), [], Apply(g, s', e));
    } else {
      ReachesOn(g, Apply(g, s, es[0]), es[1..], s', e);
      assert (es + [e])[1..] == es[1..] + [e];
    }
  }

  /** In no run of any number of threads does a thread hold two locks. */
  lemma OneLock(g: Config, threads: nat, es: seq<Event>, s: State, j: Lock, k: Lock)
    requires ConfigOk(g) && Reaches(g, Start(g, threads), es, s)
    requires j in s.holder && k in s.holder && s.holder[j] == s.holder[k]
    ensures j == k
  {
    hide Reaches, CachesOk, SlotsOk, FullOk, Start, ConfigOk;
    StartInv(g, threads);
    RunKeeps(g, Start(g, threads), SumCache(Start(g, threads).centrals), es, s);
  }

  /** In every run each cache stays within its limit and all caches together within what
      they had at the start. */
  lemma CachesBounded(g: Config, threads: nat, es: seq<Event>, s: State)
    requires ConfigOk(g) && Reaches(g, Start(g, threads), es, s)
    ensures |s.centrals| == |g.maxCache|
    ensures forall c | 0 <= c < |s.centrals| :: 0 <= s.centrals[c].used <= s.centrals[c].cacheSize <= g.maxCache[c]
    ensures SumCache(s.centrals) <= SumCache(Start(g, threads).centrals)
  {
    hide Reaches, SlotsOk, FullOk, Start, ConfigOk, LocksOk;
    StartInv(g, threads);
    RunKeeps(g, Start(g, threads), SumCache(Start(g, threads).centrals), es, s);
    CreditsPositive(s.pcs);
  }

  lemma {:induction false} CreditsPositive(pcs: seq<PC>)
    ensures SumCredit(pcs) >= 0
  {
    if pcs != [] {
      CreditsPositive(pcs[1..]);
    }
  }

  /** In every run each object of each live span is in exactly one place: on one list of
      spans, slots or chains, once, or else with the clients. */
  lemma OnePlace(g: Config, threads: nat, es: seq<Event>, s: State)
    requires ConfigOk(g) && Reaches(g, Start(g, threads), es, s)
    ensures forall o: Obj :: o in s.places <==> o.span in s.classOf && s.classOf[o.span] < |g.capacity| && o.index < g.capacity[s.classOf[o.span]]
    ensures forall o, l | o in s.places && l in s.lists :: o in s.lists[l] <==> s.places[o] == l != Client
    ensures forall l, m, i, j | l in s.lists && m in s.lists && 0 <= i < |s.lists[l]| && 0 <= j < |s.lists[m]| && s.lists[l][i] == s.lists[m][j] ::
              l == m && i == j
    ensures forall o | o in s.places && s.places[o] != Client :: o in At(s.lists, s.places[o])
  {
    hide Reaches, SlotsOk, FullOk, Start, ConfigOk, LocksOk, CachesOk, AllListed, CountsOk, FlightsOk, AllFit;
    StartInv(g, threads);
    RunKeeps(g, Start(g, threads), SumCache(Start(g, threads).centrals), es, s);
    forall l, m, i, j | l in s.lists && m in s.lists && 0 <= i < |s.lists[l]| && 0 <= j < |s.lists[m]| && s.lists[l][i] == s.lists[m][j]
      ensures l == m && i == j
    {
      assert s.lists[l][i] in s.lists[l] && s.lists[m][j] in s.lists[m];
    }
  }

  /** In every run a span's reference count is the number of its objects that are not free
      in it, and a class's counter is the number of free objects in its spans. */
  lemma RefcountExact(g: Config, threads: nat, es: seq<Event>, s: State, x: SpanPtr)
    requires ConfigOk(g) && Reaches(g, Start(g, threads), es, s) && x in s.classOf
    ensures x in s.refcount && s.refcount[x] == |set o | o in s.places && o.span == x && s.places[o] != InSpan(x)|
    ensures forall c | 0 <= c < |s.centrals| :: s.centrals[c].counter == SumFree(s.centrals[c].nonempty, s.lists)
  {
    hide Reaches, SlotsOk, FullOk, Start, ConfigOk, LocksOk, CachesOk, FlightsOk, Inv;
    StartInv(g, threads);
    var total := SumCache(Start(g, threads).centrals);
    RunKeeps(g, Start(g, threads), total, es, s);
    SpanKnown(g, s, total, x);
    Conserved(g, s, total);
    OutAndFree(g, s.classOf, s.lists, s.places, x);
  }

  lemma Conserved(g: Config, s: State, total: int)
    requires Inv(g, s, total)
    ensures Partition(s.lists, s.places) && Carves(g, s.classOf, s.places) && AllListed(s.centrals, s.classOf, s.lists)
  {
    hide Partition, Carves, AllListed, LocksOk, CachesOk, SlotsOk, AllFit, CountsOk, FlightsOk, PcsInRange, FullOk;
  }

  lemma OutAndFree(g: Config, classOf: map<SpanPtr, ClassId>, lists: Lists, places: Places, x: SpanPtr)
    requires Partition(lists, places) && Carves(g, classOf, places) && x in classOf && classOf[x] < |g.capacity|
    requires forall o | o in At(lists, InSpan(x)) :: o.span == x
    ensures |set o | o in places && o.span == x && places[o] != InSpan(x)| + |At(lists, InSpan(x))| == g.capacity[classOf[x]]
  {
    hide Partition, Carves, Distinct;
    var n := g.capacity[classOf[x]];
    var out, free := set o | o in places && o.span == x && places[o] != InSpan(x), set o | o in At(lists, InSpan(x));
    var all := set i: nat | i < n :: Obj(x, i);
    WhichFree(g, classOf, lists, places, x);
    DistinctSize(At(lists, InSpan(x)));
    CarvedSize(x, n);
    UnionSize(all, out, free);
  }

  lemma UnionSize(all: set<Obj>, a: set<Obj>, b: set<Obj>)
    requires forall o :: o in all <==> o in a || o in b
    requires forall o | o in a :: o !in b
    ensures |all| == |a| + |b|
  {
    assert all == a + b;
  }

  /** An object of a span is out or on the span's list. */
  lemma WhichFree(g: Config, classOf: map<SpanPtr, ClassId>, lists: Lists, places: Places, x: SpanPtr)
    requires Partition(lists, places) && Carves(g, classOf, places) && x in classOf
    requires forall o | o in At(lists, InSpan(x)) :: o.span == x
    ensures classOf[x] < |g.capacity| && Distinct(At(lists, InSpan(x)))
    ensures forall o: Obj :: o.span == x && o.index < g.capacity[classOf[x]] <==>
      (o in places && o.span == x && places[o] != InSpan(x)) || o in At(lists, InSpan(x))
    ensures forall o | o in At(lists, InSpan(x)) :: o in places && places[o] == InSpan(x)
    ensures forall o: Obj :: o in (set i: nat | i < g.capacity[classOf[x]] :: Obj(x, i)) <==> o.span == x && o.index < g.capacity[classOf[x]]
  {
    FreeDistinct(lists, places, InSpan(x));
  }

  /** No run gets stuck: whoever holds a lock can go on, and if nobody holds one, whoever
      waits for one can have it. */
  lemma NoDeadlock(g: Config, threads: nat, es: seq<Event>, s: State, t: Thread)
    requires ConfigOk(g) && Reaches(g, Start(g, threads), es, s) && t < |s.pcs| && s.pcs[t] != Idle
    ensures exists e: Event :: Enabled(s, e) && !e.CallInsert? && !e.CallRemove?
  {
    hide Reaches, SlotsOk, FullOk, Start, ConfigOk, CachesOk, AllListed, CountsOk, FlightsOk, AllFit, Partition, Carves;
    StartInv(g, threads);
    RunKeeps(g, Start(g, threads), SumCache(Start(g, threads).centrals), es, s);
    var p := s.pcs[t];
    if Waits(p) && Wanted(p) in s.holder {
      CanGoOn(s, s.holder[Wanted(p)]);
    } else {
      CanGoOn(s, t);
    }
  }

  lemma CanGoOn(s: State, t: Thread)
    requires LocksOk(s.holder, s.pcs) && PcsInRange(s.pcs, |s.centrals|) && t < |s.pcs| && s.pcs[t] != Idle
    requires Waits(s.pcs[t]) ==> Wanted(s.pcs[t]) !in s.holder
    ensures exists e: Event :: Enabled(s, e) && !e.CallInsert? && !e.CallRemove?
  {
    var p := s.pcs[t];
    assert InRange(p, |s.centrals|);
    if Waits(p) {
      assert Enabled(s, Take(t));
    } else if p.Evict? {
      assert Enabled(s, Steal(t, p.c));
    } else if p.Growing? {
      assert Enabled(s, Obtain(t, NULL));
    } else {
      assert Enabled(s, Work(t));
    }
  }
}
