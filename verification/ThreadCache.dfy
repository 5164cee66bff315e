/** The caches of free objects that threads keep, and how they share the total room. */
module ThreadCache {
  import opened Arith
  import T = Tiers

  type Obj = T.Obj
  type ClassId = T.ClassId

  /** Stands for no object. */
  const NO_OBJECT: Obj := T.Obj(0, 0)

  const MIN_THREAD_CACHE: int := 0x8_0000
  const MAX_THREAD_CACHE: int := 0x40_0000
  const STEAL_AMOUNT: int := 0x1_0000
  const STEAL_TRIES: int := 10
  const MAX_OVERAGES: int := 3
  const MAX_DYNAMIC_LENGTH: int := 8192

  /** The size of each class's objects and how many are moved at a time. */
  datatype Config = Config(sizes: seq<nat>, batch: seq<nat>) {
    ghost predicate Valid() {
      && |sizes| == |batch|
      && forall c | 0 <= c < |sizes| :: 1 <= batch[c] <= MAX_DYNAMIC_LENGTH
    }
  }

  ghost predicate Distinct(q: seq<Obj>) { T.Distinct(q) }

  function Elements(q: seq<Obj>): set<Obj> { set o | o in q }

  lemma ElementsSplit(q: seq<Obj>, n: int)
    requires Distinct(q) && 0 <= n <= |q|
    ensures Elements(q) == Elements(q[..n]) + Elements(q[n..]) && Elements(q[..n]) !! Elements(q[n..])
    ensures Distinct(q[..n]) && Distinct(q[n..])
  {
    assert q == q[..n] + q[n..];
  }

  lemma ElementsJoin(p: seq<Obj>, q: seq<Obj>)
    requires Distinct(p) && Distinct(q) && Elements(p) !! Elements(q)
    ensures Elements(p + q) == Elements(p) + Elements(q) && Distinct(p + q)
  {
    forall i, j | 0 <= i < j < |p + q| ensures (p + q)[i] != (p + q)[j] {
      if i < |p| <= j {
        assert p[i] in Elements(p) && q[j - |p|] in Elements(q);
      }
    }
  }

  /** The central cache hands out at most n objects, none of which is out. */
  ghost predicate HandedOut(chain: seq<Obj>, n: nat, out: set<Obj>) {
    |chain| <= n && Distinct(chain) && Elements(chain) !! out
  }

  /** What the central caches hand out, by the number of the call, for a class, a number of
      objects asked for and the objects of the class that are out. */
  type Supply = f: (nat, ClassId, nat, set<Obj>) -> seq<Obj>
    | forall i, cl, n, out :: HandedOut(f(i, cl, n, out), n, out)
    witness (i, cl, n, out) => []

  /** The central caches as threads see them: for each class the objects that are out. */
  class Depot {
    var out: seq<set<Obj>>

    const supply: Supply
    var calls: nat

    constructor (classes: nat, supply: Supply)
      ensures out == seq(classes, c => {}) && this.supply == supply
    {
      out, calls := seq(classes, c => {}), 0;
      this.supply := supply;
    }

    /** What the next call for n objects would hand out. Nothing means that memory has run
        out. */
    function Next(cl: ClassId, n: nat): (chain: seq<Obj>)
      requires cl < |out|
      reads this
      ensures HandedOut(chain, n, out[cl])
    {
      assert HandedOut(supply(calls, cl, n, out[cl]), n, out[cl]);
      supply(calls, cl, n, out[cl])
    }

    method RemoveRange(cl: ClassId, n: nat) returns (chain: seq<Obj>)
      requires cl < |out|
      modifies this
      ensures chain == old(Next(cl, n)) && out == old(out)[cl := old(out)[cl] + Elements(chain)]
    {
      chain := Next(cl, n);
      calls := calls + 1;
      out := out[cl := out[cl] + Elements(chain)];
    }

    method InsertRange(cl: ClassId, chain: seq<Obj>)
      requires cl < |out| && Distinct(chain) && Elements(chain) <= out[cl]
      modifies this`out
      ensures out == old(out)[cl := old(out)[cl] - Elements(chain)]
    {
      out := out[cl := out[cl] - Elements(chain)];
    }
  }

  // ---- Free lists as values ----

  /** What a free list records. */
  datatype Row = Row(list: seq<Obj>, length: int, lowater: int, maxLength: int, overages: int, objectSize: int)

  ghost predicate Sane(r: Row) { r.length == |r.list| && 0 <= r.lowater <= r.length && r.maxLength >= 1 && Distinct(r.list) }

  /** The list's limit is small or a whole number of batches; its objects are out. */
  ghost predicate RowOk(r: Row, size: int, batch: int, out: set<Obj>)
    requires batch >= 1
  {
    Sane(r) && r.objectSize == size && (r.maxLength <= batch || r.maxLength % batch == 0) && Elements(r.list) <= out
  }

  ghost predicate RowsOk(g: Config, rows: seq<Row>, out: seq<set<Obj>>) {
    && g.Valid() && |rows| == |g.sizes| == |out|
    && forall c | 0 <= c < |rows| :: RowOk(rows[c], g.sizes[c], g.batch[c], out[c])
  }

  lemma RowSane(g: Config, rows: seq<Row>, out: seq<set<Obj>>, c: ClassId)
    requires RowsOk(g, rows, out) && c < |rows|
    ensures |rows| == |g.sizes| == |g.batch| == |out| && g.batch[c] >= 1
    ensures Sane(rows[c]) && rows[c].length == |rows[c].list| && Elements(rows[c].list) <= out[c]
  {
    assert RowOk(rows[c], g.sizes[c], g.batch[c], out[c]);
  }

  lemma EmptyFront(q: seq<Obj>)
    ensures Elements(q[..0]) == {}
  {
  }

  /** The bytes on all lists. */
  ghost function Total(rows: seq<Row>): int {
    if rows == [] then 0 else rows[0].length * rows[0].objectSize + Total(rows[1..])
  }

  lemma {:induction false} TotalUpdate(rows: seq<Row>, c: nat, r: Row)
    requires c < |rows|
    ensures Total(rows[c := r]) == Total(rows) - rows[c].length * rows[c].objectSize + r.length * r.objectSize
  {
    if c == 0 {
      assert rows[0 := r] == [r] + rows[1..];
    } else {
      TotalUpdate(rows[1..], c - 1, r);
      assert rows[c := r] == [rows[0]] + rows[1..][c - 1 := r];
    }
  }

  /** The objects of class c that are out, but not on this cache's list. */
  ghost function Away(rows: seq<Row>, out: seq<set<Obj>>, c: int): set<Obj>
    requires 0 <= c < |rows| == |out|
  {
    out[c] - Elements(rows[c].list)
  }

  /** A list after its first n objects were taken. */
  ghost function Popped(r: Row, n: int): Row
    requires 0 <= n <= |r.list|
  {
    r.(list := r.list[n..], length := r.length - n, lowater := if r.length - n < r.lowater then r.length - n else r.lowater)
  }

  /** How many of n objects can be taken. */
  function AtMost(n: int, length: int): int { if n > length then length else n }

  /** A list after it was scavenged: without half of the objects that were not needed, and
      with a limit that may be a batch lower, but not below a batch. */
  ghost function Scavenged(r: Row, batch: int): Row
    requires Sane(r)
  {
    var p := if r.lowater > 0 then Popped(r, if r.lowater > 1 then r.lowater / 2 else 1) else r;
    var limit := if r.lowater > 0 && r.maxLength > batch then (if r.maxLength - batch > batch then r.maxLength - batch else batch) else r.maxLength;
    p.(lowater := p.length, maxLength := limit)
  }

  ghost predicate IsScavenged(s: Row, r: Row, batch: int) { Sane(r) && s == Scavenged(r, batch) }

  /** A list scavenged n times while no one uses it. */
  ghost function Idled(r: Row, batch: int, n: nat): Row
    requires Sane(r) && batch >= 1
    decreases n
  {
    if n == 0 then r else Idled(Scavenged(r, batch), batch, n - 1)
  }

  /** An idle list keeps at most half of its objects, rounded up, and in the end none. */
  lemma {:induction false} IdleDrains(r: Row, batch: int, n: nat)
    requires Sane(r) && batch >= 1 && r.lowater == r.length
    ensures |Scavenged(r, batch).list| <= (|r.list| + 1) / 2
    ensures n >= |r.list| ==> Idled(r, batch, n).list == []
    decreases n
  {
    if n > 0 {
      IdleDrains(Scavenged(r, batch), batch, n - 1);
    }
  }

  /** A list's limit and overages after it has been too long. */
  ghost function Limits(r: Row, batch: int): (int, int) {
    if r.maxLength < batch then (r.maxLength + 1, r.overages)
    else if r.maxLength == batch then (batch, r.overages)
    else if r.overages < MAX_OVERAGES then (r.maxLength, r.overages + 1)
    else (r.maxLength - batch, 0)
  }

  ghost predicate SameAway(rows: seq<Row>, out: seq<set<Obj>>, rows': seq<Row>, out': seq<set<Obj>>) {
    && |rows| == |out| == |rows'| == |out'|
    && forall c | 0 <= c < |rows| :: Away(rows', out', c) == Away(rows, out, c)
  }

  /** Objects that go back to the central cache leave both the list and those out. */
  lemma Released(g: Config, rows: seq<Row>, out: seq<set<Obj>>, c: nat, n: int)
    requires RowsOk(g, rows, out) && c < |rows| && 0 <= n <= |rows[c].list|
    ensures var out' := out[c := out[c] - Elements(rows[c].list[..n])];
            && RowsOk(g, rows[c := Popped(rows[c], n)], out') && SameAway(rows, out, rows[c := Popped(rows[c], n)], out')
    ensures Elements(rows[c].list[..n]) <= out[c]
  {
    assert RowOk(rows[c], g.sizes[c], g.batch[c], out[c]);
    ElementsSplit(rows[c].list, n);
  }

  lemma PoppedTwice(r: Row, n: int, m: int)
    requires Sane(r) && 0 <= n && 0 <= m && n + m <= |r.list|
    ensures Popped(Popped(r, n), m) == Popped(r, n + m)
    ensures Elements(r.list[..n + m]) == Elements(r.list[..n]) + Elements(r.list[n..][..m])
  {
    assert r.list[n..][m..] == r.list[n + m..];
    assert r.list[..n + m] == r.list[..n] + r.list[n..][..m];
  }

  /** A list of the given limit may have n objects from now on: one more than before until
      that is a batch, then a batch more than before, as far as lists go. */
  predicate Longer(maxLength: int, batch: int, n: int) {
    && (maxLength < batch ==> n == maxLength + 1)
    && (maxLength >= batch ==> n <= MAX_DYNAMIC_LENGTH < n + batch || n == maxLength + batch <= MAX_DYNAMIC_LENGTH)
  }

  /** The next limit of a list: up by one to a batch, then by batches. */
  method LongerLength(maxLength: nat, batch: nat) returns (n: nat)
    requires 1 <= batch <= MAX_DYNAMIC_LENGTH && maxLength >= 1 && (maxLength <= batch || maxLength % batch == 0)
    ensures n >= 1 && (n <= batch || n % batch == 0) && Longer(maxLength, batch, n)
  {
    if maxLength < batch {
      return maxLength + 1;
    }
    n := if maxLength + batch < MAX_DYNAMIC_LENGTH then maxLength + batch else MAX_DYNAMIC_LENGTH;
    WholeBatches(n, batch);
    BatchMore(maxLength, batch);
    n := n - n % batch;
  }

  /** A batch more than whole batches, or than one batch, is whole batches. */
  lemma BatchMore(n: nat, batch: nat)
    requires batch >= 1
    ensures n % batch == 0 || n == batch ==> (n + batch) % batch == 0
  {
    if n % batch == 0 {
      AlignedStep(n, batch);
    } else if n == batch {
      ModUnique(n + batch, batch, 2, 0);
    }
  }

  /** The whole batches in n, at least one. */
  lemma WholeBatches(n: nat, batch: nat)
    requires 1 <= batch <= n
    ensures batch <= n - n % batch <= n && (n - n % batch) % batch == 0
  {
    assert n == batch * (n / batch) + n % batch;
    ModUnique(n - n % batch, batch, n / batch, 0);
    MulZero(batch, n / batch);
    BlockEnd(n, batch);
    MulBig(batch, n / batch);
  }

  /** An object, if found, left a cache or the central cache for the client. */
  ghost predicate Took(rows: seq<Row>, out: seq<set<Obj>>, rows': seq<Row>, out': seq<set<Obj>>, cl: ClassId, found: bool, ptr: Obj) {
    && |rows| == |out| == |rows'| == |out'| && cl < |rows|
    && (found ==> ptr !in Away(rows, out, cl))
    && forall c | 0 <= c < |rows| :: Away(rows', out', c) == Away(rows, out, c) + (if found && c == cl then {ptr} else {})
  }

  lemma TookNothing(rows: seq<Row>, out: seq<set<Obj>>, cl: ClassId)
    requires cl < |rows| == |out|
    ensures Took(rows, out, rows, out, cl, false, NO_OBJECT)
  {
  }

  lemma NoElements(s: set<Obj>)
    ensures s + Elements([]) == s
  {
  }

  lemma RowKnown(g: Config, rows: seq<Row>, out: seq<set<Obj>>, c: ClassId)
    requires RowsOk(g, rows, out) && c < |rows|
    ensures |rows| == |g.sizes| == |g.batch| == |out| && 1 <= g.batch[c] <= MAX_DYNAMIC_LENGTH
    ensures RowOk(rows[c], g.sizes[c], g.batch[c], out[c])
  {
  }

  /** Popping the first object of a list. */
  lemma PopTaken(g: Config, rows: seq<Row>, out: seq<set<Obj>>, cl: ClassId)
    requires RowsOk(g, rows, out) && cl < |rows| && rows[cl].list != []
    ensures RowsOk(g, rows[cl := Popped(rows[cl], 1)], out)
    ensures Took(rows, out, rows[cl := Popped(rows[cl], 1)], out, cl, true, rows[cl].list[0])
  {
    assert RowOk(rows[cl], g.sizes[cl], g.batch[cl], out[cl]);
    ElementsSplit(rows[cl].list, 1);
    assert Elements(rows[cl].list[..1]) == {rows[cl].list[0]};
  }

  /** An object came back from the client. */
  ghost predicate Gave(rows: seq<Row>, out: seq<set<Obj>>, rows': seq<Row>, out': seq<set<Obj>>, cl: ClassId, ptr: Obj) {
    && |rows| == |out| == |rows'| == |out'| && cl < |rows|
    && forall c | 0 <= c < |rows| :: Away(rows', out', c) == Away(rows, out, c) - (if c == cl then {ptr} else {})
  }

  lemma PushGave(g: Config, rows: seq<Row>, out: seq<set<Obj>>, cl: ClassId, ptr: Obj, r: Row)
    requires RowsOk(g, rows, out) && cl < |rows| && ptr in out[cl] && ptr !in rows[cl].list
    requires r == rows[cl].(list := [ptr] + rows[cl].list, length := rows[cl].length + 1)
    ensures RowsOk(g, rows[cl := r], out) && Gave(rows, out, rows[cl := r], out, cl, ptr)
  {
    assert RowOk(rows[cl], g.sizes[cl], g.batch[cl], out[cl]);
    assert Elements([ptr]) == {ptr};
    ElementsJoin([ptr], rows[cl].list);
  }

  lemma GaveThen(r0: seq<Row>, o0: seq<set<Obj>>, r1: seq<Row>, o1: seq<set<Obj>>, r2: seq<Row>, o2: seq<set<Obj>>, cl: ClassId, ptr: Obj)
    requires Gave(r0, o0, r1, o1, cl, ptr) && SameAway(r1, o1, r2, o2)
    ensures Gave(r0, o0, r2, o2, cl, ptr)
  {
    forall c | 0 <= c < |r0| ensures Away(r2, o2, c) == Away(r0, o0, c) - (if c == cl then {ptr} else {}) {
      assert Away(r2, o2, c) == Away(r1, o1, c);
    }
  }

  lemma OneMoreObject(n: int, size: int)
    ensures (n + 1) * size == n * size + size
  {
  }

  lemma OneLess(n: int, size: int)
    ensures (n - 1) * size == n * size - size
  {
  }

  lemma LessBy(n: int, k: int, size: int)
    ensures (n - k) * size == n * size - k * size
  {
  }

  lemma SameAwayNone(rows: seq<Row>, out: seq<set<Obj>>)
    requires |rows| == |out|
    ensures SameAway(rows, out, rows, out)
  {
  }

  lemma AwayTwice(r0: seq<Row>, o0: seq<set<Obj>>, r1: seq<Row>, o1: seq<set<Obj>>, r2: seq<Row>, o2: seq<set<Obj>>)
    requires SameAway(r0, o0, r1, o1) && SameAway(r1, o1, r2, o2)
    ensures SameAway(r0, o0, r2, o2)
  {
    forall c | 0 <= c < |r0| ensures Away(r2, o2, c) == Away(r0, o0, c) {
      assert Away(r1, o1, c) == Away(r0, o0, c);
    }
  }

  lemma FewerBatches(n: nat, batch: nat)
    requires 1 <= batch < n && n % batch == 0
    ensures n - batch >= batch && (n - batch) % batch == 0 && batch % batch == 0
  {
    assert n == batch * (n / batch);
    ModUnique(n - batch, batch, n / batch - 1, 0);
    ModUnique(batch, batch, 1, 0);
    MulBig(batch, n / batch);
    if n / batch == 1 {
    } else {
      MulNonNeg(batch, if n / batch >= 2 then n / batch - 2 else 0);
    }
  }

  lemma LowWaterCleared(g: Config, rows: seq<Row>, out: seq<set<Obj>>, cl: ClassId, r: Row)
    requires RowsOk(g, rows, out) && cl < |rows| && r == rows[cl].(lowater := rows[cl].length)
    ensures RowsOk(g, rows[cl := r], out) && Total(rows[cl := r]) == Total(rows) && SameAway(rows, out, rows[cl := r], out)
  {
    hide Total;
    assert RowOk(rows[cl], g.sizes[cl], g.batch[cl], out[cl]);
    TotalUpdate(rows, cl, r);
  }

  lemma RowsLength(g: Config, rows: seq<Row>, out: seq<set<Obj>>)
    requires RowsOk(g, rows, out)
    ensures |rows| == |g.sizes| == |out| == |g.batch|
  {
  }

  lemma {:induction false} NoTotal(rows: seq<Row>)
    requires forall c | 0 <= c < |rows| :: rows[c].length == 0
    ensures Total(rows) == 0
  {
    if rows != [] {
      NoTotal(rows[1..]);
    }
  }

  lemma NoBytes(g: Config, rows: seq<Row>, out: seq<set<Obj>>)
    requires RowsOk(g, rows, out) && forall c | 0 <= c < |rows| :: rows[c].list == []
    ensures Total(rows) == 0
  {
    forall c | 0 <= c < |rows| ensures rows[c].length == 0 {
      assert RowOk(rows[c], g.sizes[c], g.batch[c], out[c]);
    }
    NoTotal(rows);
  }

  /** The fetched objects but the first are on the list. */
  lemma Fetched(g: Config, rows: seq<Row>, out: seq<set<Obj>>, cl: ClassId, chain: seq<Obj>, r: Row)
    requires RowsOk(g, rows, out) && cl < |rows| && rows[cl].list == [] && chain != [] && Distinct(chain) && Elements(chain) !! out[cl]
    requires r == rows[cl].(list := chain[1..] + rows[cl].list, length := rows[cl].length + |chain| - 1, maxLength := r.maxLength)
    requires r.maxLength >= 1 && (r.maxLength <= g.batch[cl] || r.maxLength % g.batch[cl] == 0)
    ensures RowsOk(g, rows[cl := r], out[cl := out[cl] + Elements(chain)])
    ensures Took(rows, out, rows[cl := r], out[cl := out[cl] + Elements(chain)], cl, true, chain[0])
  {
    assert RowOk(rows[cl], g.sizes[cl], g.batch[cl], out[cl]);
    assert chain[1..] + [] == chain[1..];
    ElementsSplit(chain, 1);
    assert Elements(chain[..1]) == {chain[0]};
  }

  /** A thread's list of free objects of one class. */
  class FreeList {
    var list: seq<Obj>
    var length: nat
    var lowater: nat
    var maxLength: nat
    var lengthOverages: nat
    const objectSize: nat

    ghost function State(): Row
      reads this
    {
      Row(list, length, lowater, maxLength, lengthOverages, objectSize)
    }

    constructor (size: nat)
      ensures State() == Row([], 0, 0, 1, 0, size)
    {
      list, length, lowater, maxLength, lengthOverages, objectSize := [], 0, 0, 1, 0, size;
    }

    method ClearLowWaterMark()
      modifies this`lowater
      ensures State() == old(State()).(lowater := length)
    {
      lowater := length;
    }

    method SetMaxLength(n: nat)
      modifies this`maxLength
      ensures State() == old(State()).(maxLength := n)
    {
      maxLength := n;
    }

    method SetLengthOverages(n: nat)
      modifies this`lengthOverages
      ensures State() == old(State()).(overages := n)
    {
      lengthOverages := n;
    }

    method Push(ptr: Obj) returns (n: nat)
      modifies this`list, this`length
      ensures State() == old(State()).(list := [ptr] + old(list), length := old(length) + 1) && n == length
    {
      list := [ptr] + list;
      length := length + 1;
      n := length;
    }

    method TryPop() returns (found: bool, ptr: Obj)
      requires Sane(State())
      modifies this`list, this`length, this`lowater
      ensures found == (old(list) != [])
      ensures found ==> ptr == old(list)[0] && State() == Popped(old(State()), 1)
      ensures !found ==> State() == old(State())
    {
      if list == [] {
        return false, NO_OBJECT;
      }
      found, ptr := true, list[0];
      list := list[1..];
      length := length - 1;
      if length < lowater {
        lowater := length;
      }
    }

    method PushRange(n: nat, chain: seq<Obj>)
      modifies this`list, this`length
      ensures State() == old(State()).(list := chain + old(list), length := old(length) + n)
    {
      list := chain + list;
      length := length + n;
    }

    method PopRange(n: nat) returns (chain: seq<Obj>)
      requires Sane(State()) && n <= |list|
      modifies this`list, this`length, this`lowater
      ensures chain == old(list)[..n] && State() == Popped(old(State()), n)
    {
      chain := list[..n];
      list := list[n..];
      length := length - n;
      if length < lowater {
        lowater := length;
      }
    }
  }

  class ThreadCache {
    const g: Config
    const lists: seq<FreeList>
    var size: int
    var maxSize: int

    ghost function Rows(): seq<Row>
      reads lists
    {
      seq(|lists|, c requires 0 <= c < |lists| reads lists => lists[c].State())
    }

    ghost predicate Apart() {
      |lists| == |g.sizes| && forall c, d | 0 <= c < d < |lists| :: lists[c] != lists[d]
    }

    ghost predicate Valid(depot: Depot)
      reads this`size, lists, depot
    {
      Apart() && RowsOk(g, Rows(), depot.out) && size == Total(Rows())
    }

    static method MakeLists(sizes: seq<nat>) returns (lists: seq<FreeList>)
      ensures |lists| == |sizes| && forall c | 0 <= c < |lists| :: fresh(lists[c]) && lists[c].State() == Row([], 0, 0, 1, 0, sizes[c])
      ensures forall c, d | 0 <= c < d < |lists| :: lists[c] != lists[d]
    {
      lists := [];
      for k := 0 to |sizes|
        invariant |lists| == k && forall c | 0 <= c < k :: fresh(lists[c]) && lists[c].State() == Row([], 0, 0, 1, 0, sizes[c])
        invariant forall c, d | 0 <= c < d < k :: lists[c] != lists[d]
      {
        var l := new FreeList(sizes[k]);
        lists := lists + [l];
      }
    }

    /** A cache of empty lists, each allowed to hold one object. */
    constructor (g: Config, depot: Depot)
      requires g.Valid() && |depot.out| == |g.sizes|
      ensures Valid(depot) && this.g == g && size == 0 && fresh(lists)
      ensures forall c | 0 <= c < |lists| :: lists[c].list == [] && lists[c].maxLength == 1
    {
      var made := MakeLists(g.sizes);
      this.g, lists, size, maxSize := g, made, 0, 0;
      new;
      assert forall c | 0 <= c < |lists| :: RowOk(Rows()[c], g.sizes[c], g.batch[c], depot.out[c]);
      NoTotal(Rows());
    }

    /** Gives one chain of a list back, after `done` objects already given back. */
    method ReleaseChain(depot: Depot, cl: ClassId, src: FreeList, n: nat, ghost row: Row, ghost out: seq<set<Obj>>, ghost done: nat)
      requires cl < |out| && Sane(row) && done + n <= |row.list| && Elements(row.list) <= out[cl]
      requires src.State() == Popped(row, done) && depot.out == out[cl := out[cl] - Elements(row.list[..done])]
      modifies src`list, src`length, src`lowater, depot
      ensures src.State() == Popped(row, done + n) && depot.out == out[cl := out[cl] - Elements(row.list[..done + n])]
    {
      hide Distinct;
      PoppedTwice(row, done, n);
      ElementsSplit(row.list, done);
      ElementsSplit(row.list[done..], n);
      var chain := src.PopRange(n);
      depot.InsertRange(cl, chain);
      assert out[cl] - Elements(row.list[..done]) - Elements(chain) == out[cl] - Elements(row.list[..done + n]);
    }

    /** Gives n objects of a list back, a batch at a time. */
    method ReleaseChains(depot: Depot, cl: ClassId, n: nat)
      requires Apart() && RowsOk(g, Rows(), depot.out) && cl < |lists| && n <= |lists[cl].list|
      modifies lists[cl], depot
      ensures lists[cl].State() == Popped(old(lists[cl].State()), n)
      ensures depot.out == old(depot.out)[cl := old(depot.out)[cl] - Elements(old(lists[cl].list)[..n])]
    {
      hide RowsOk, Sane, Elements;
      var src := lists[cl];
      ghost var row, out := src.State(), depot.out;
      RowSane(g, Rows(), out, cl);
      EmptyFront(row.list);
      assert out[cl] - {} == out[cl];
      var left, batch := n, g.batch[cl];
      while left > batch
        invariant 0 <= left <= n && src.State() == Popped(row, n - left)
        invariant depot.out == out[cl := out[cl] - Elements(row.list[..n - left])]
      {
        ReleaseChain(depot, cl, src, batch, row, out, n - left);
        left := left - batch;
      }
      ReleaseChain(depot, cl, src, left, row, out, n - left);
    }

    /** Gives up to n objects of a list back, a batch at a time. */
    method ReleaseToCentralCache(depot: Depot, cl: ClassId, n: nat)
      requires Apart() && RowsOk(g, Rows(), depot.out) && cl < |lists|
      modifies this`size, lists[cl], depot
      ensures var k := AtMost(n, |old(lists[cl].list)|);
        && Rows() == old(Rows())[cl := Popped(old(Rows())[cl], k)]
        && depot.out == old(depot.out)[cl := old(depot.out)[cl] - Elements(old(lists[cl].list)[..k])]
        && size == old(size) - k * g.sizes[cl]
    {
      hide Total, SameAway, RowsOk, Sane, Elements, Popped;
      var src := lists[cl];
      RowSane(g, Rows(), depot.out, cl);
      var left := n;
      if left > src.length {
        left := src.length;
      }
      var delta := left * g.sizes[cl];
      ReleaseChains(depot, cl, left);
      size := size - delta;
    }

    /** Fetches objects when the list is empty: the first is for the caller, the others go
        on the list, and the list may grow longer from now on. */
    method FetchFromCentralCache(depot: Depot, cl: ClassId) returns (found: bool, ptr: Obj)
      requires Valid(depot) && cl < |lists| && lists[cl].list == []
      modifies this`size, lists[cl], depot
      ensures Valid(depot) && Took(old(Rows()), old(depot.out), Rows(), depot.out, cl, found, ptr)
      ensures found <==> old(depot.Next(cl, AtMost(g.batch[cl], lists[cl].maxLength))) != []
      ensures !found ==> Rows() == old(Rows()) && depot.out == old(depot.out)
      ensures found ==> var chain := old(depot.Next(cl, AtMost(g.batch[cl], lists[cl].maxLength)));
        ptr == chain[0] && lists[cl].list == chain[1..]
      ensures found ==>
        && |lists[cl].list| < AtMost(g.batch[cl], old(lists[cl].maxLength))
        && Longer(old(lists[cl].maxLength), g.batch[cl], lists[cl].maxLength)
    {
      hide Total, RowsOk, Took, Elements, Distinct;
      var list := lists[cl];
      ghost var rows, out := Rows(), depot.out;
      RowKnown(g, rows, out, cl);
      TookNothing(rows, out, cl);
      var batch := g.batch[cl];
      var want := if list.maxLength < batch then list.maxLength else batch;
      var chain := depot.RemoveRange(cl, want);
      if chain == [] {
        NoElements(out[cl]);
        assert depot.out == out && Rows() == rows;
        return false, NO_OBJECT;
      }
      KeepRest(depot, cl, chain, out);
      return true, chain[0];
    }

    /** Puts the fetched objects but the first on the list and lets the list grow longer. */
    method KeepRest(depot: Depot, cl: ClassId, chain: seq<Obj>, ghost out: seq<set<Obj>>)
      requires Apart() && RowsOk(g, Rows(), out) && size == Total(Rows()) && cl < |lists| && lists[cl].list == []
      requires chain != [] && Distinct(chain) && Elements(chain) !! out[cl] && depot.out == out[cl := out[cl] + Elements(chain)]
      modifies this`size, lists[cl]
      ensures Valid(depot) && Took(old(Rows()), out, Rows(), depot.out, cl, true, chain[0])
      ensures lists[cl].list == chain[1..] && Longer(old(lists[cl].maxLength), g.batch[cl], lists[cl].maxLength)
    {
      hide Total, RowsOk, Took, Elements, Distinct;
      var list := lists[cl];
      ghost var rows := Rows();
      RowKnown(g, rows, out, cl);
      var fetched := |chain| - 1;
      size := size + g.sizes[cl] * fetched;
      list.PushRange(fetched, chain[1..]);
      var longer := LongerLength(list.maxLength, g.batch[cl]);
      list.SetMaxLength(longer);
      Fetched(g, rows, out, cl, chain, list.State());
      TotalUpdate(rows, cl, list.State());
      assert Rows() == rows[cl := list.State()];
    }

    /** Allocates an object of class cl, from the list if it has any. */
    method Allocate(depot: Depot, cl: ClassId) returns (found: bool, ptr: Obj)
      requires Valid(depot) && cl < |lists|
      modifies this`size, lists[cl], depot
      ensures Valid(depot) && Took(old(Rows()), old(depot.out), Rows(), depot.out, cl, found, ptr)
      ensures old(lists[cl].list) == [] ==> (found <==> old(depot.Next(cl, AtMost(g.batch[cl], lists[cl].maxLength))) != [])
      ensures old(lists[cl].list) != [] ==> found && ptr == old(lists[cl].list)[0] && depot.out == old(depot.out)
    {
      hide Total, RowsOk, Took, Elements, Distinct;
      var list := lists[cl];
      ghost var rows, out := Rows(), depot.out;
      RowKnown(g, rows, out, cl);
      found, ptr := list.TryPop();
      if !found {
        assert Rows() == rows;
        found, ptr := FetchFromCentralCache(depot, cl);
        return;
      }
      size := size - g.sizes[cl];
      PopTaken(g, rows, out, cl);
      TotalUpdate(rows, cl, list.State());
      OneLess(rows[cl].length, g.sizes[cl]);
      assert Rows() == rows[cl := list.State()];
    }

    /** Gives objects back to the central cache, keeping size and lists in step. `extra`
        is what size is off by. */
    method GiveBack(depot: Depot, cl: ClassId, n: nat, ghost extra: int)
      requires Apart() && RowsOk(g, Rows(), depot.out) && size == Total(Rows()) + extra && cl < |lists|
      modifies this`size, lists[cl], depot
      ensures RowsOk(g, Rows(), depot.out) && size == Total(Rows()) + extra && |depot.out| == old(|depot.out|)
      ensures SameAway(old(Rows()), old(depot.out), Rows(), depot.out)
      ensures var k := AtMost(n, |old(lists[cl].list)|);
        && lists[cl].State() == Popped(old(lists[cl].State()), k)
        && depot.out == old(depot.out)[cl := old(depot.out)[cl] - Elements(old(lists[cl].list)[..k])]
    {
      hide Total, RowsOk, Elements, Distinct;
      ghost var rows, out := Rows(), depot.out;
      RowKnown(g, rows, out, cl);
      ghost var k := AtMost(n, |rows[cl].list|);
      ReleaseToCentralCache(depot, cl, n);
      Released(g, rows, out, cl, k);
      TotalUpdate(rows, cl, Popped(rows[cl], k));
      LessBy(rows[cl].length, k, g.sizes[cl]);
      assert Rows()[cl] == Popped(rows[cl], k);
      assert lists[cl].State() == Rows()[cl];
    }

    /** Changes a list's limit and overages. */
    method SetLimit(depot: Depot, cl: ClassId, maxLength: nat, overages: nat)
      requires Apart() && RowsOk(g, Rows(), depot.out) && cl < |lists| == |g.batch|
      requires maxLength >= 1 && g.batch[cl] >= 1 && (maxLength <= g.batch[cl] || maxLength % g.batch[cl] == 0)
      modifies lists[cl]
      ensures RowsOk(g, Rows(), depot.out) && Total(Rows()) == old(Total(Rows()))
      ensures SameAway(old(Rows()), depot.out, Rows(), depot.out)
      ensures lists[cl].State() == old(lists[cl].State()).(maxLength := maxLength, overages := overages)
    {
      hide Total;
      ghost var rows := Rows();
      lists[cl].SetMaxLength(maxLength);
      lists[cl].SetLengthOverages(overages);
      TotalUpdate(rows, cl, lists[cl].State());
      assert RowOk(rows[cl], g.sizes[cl], g.batch[cl], depot.out[cl]);
      assert Rows() == rows[cl := lists[cl].State()];
    }

    /** A list has grown past its limit: gives a batch back and adapts the limit. */
    method ListTooLong(depot: Depot, cl: ClassId)
      requires Apart() && RowsOk(g, Rows(), depot.out) && cl < |lists| && size == Total(Rows()) - g.sizes[cl]
      modifies this`size, lists[cl], depot
      ensures Valid(depot) && SameAway(old(Rows()), old(depot.out), Rows(), depot.out)
      ensures var k := AtMost(g.batch[cl], |old(lists[cl].list)|);
        && lists[cl].list == old(lists[cl].list)[k..]
        && depot.out == old(depot.out)[cl := old(depot.out)[cl] - Elements(old(lists[cl].list)[..k])]
      ensures (lists[cl].maxLength, lists[cl].lengthOverages) == Limits(old(lists[cl].State()), g.batch[cl])
    {
      hide Total, RowsOk, Elements, Distinct;
      ghost var rows, out := Rows(), depot.out;
      RowKnown(g, rows, out, cl);
      size := size + lists[cl].objectSize;
      var batch := g.batch[cl];
      GiveBack(depot, cl, batch, 0);
      ghost var rows1, out1 := Rows(), depot.out;
      RowKnown(g, rows1, out1, cl);
      var list := lists[cl];
      if list.maxLength < batch {
        SetLimit(depot, cl, list.maxLength + 1, list.lengthOverages);
        AwayTwice(rows, out, rows1, out1, Rows(), depot.out);
      } else if list.maxLength > batch {
        var overages := list.lengthOverages + 1;
        FewerBatches(list.maxLength, batch);
        if overages > MAX_OVERAGES {
          SetLimit(depot, cl, list.maxLength - batch, 0);
        } else {
          SetLimit(depot, cl, list.maxLength, overages);
        }
        AwayTwice(rows, out, rows1, out1, Rows(), depot.out);
      }
    }

    /** The part of Deallocate that concerns the cache alone; tells whether it has become
        larger than it should be. */
    method PushFreed(depot: Depot, ptr: Obj, cl: ClassId) returns (tooLarge: bool)
      requires Valid(depot) && cl < |lists| == |depot.out| && ptr in depot.out[cl] && ptr !in lists[cl].list
      modifies this`size, lists[cl], depot
      ensures Valid(depot) && Gave(old(Rows()), old(depot.out), Rows(), depot.out, cl, ptr) && tooLarge == (size > maxSize)
      ensures old(lists[cl].length) < old(lists[cl].maxLength) ==>
        && lists[cl].list == [ptr] + old(lists[cl].list) && depot.out == old(depot.out) && size == old(size) + g.sizes[cl]
    {
      hide Total, RowsOk, Elements, Distinct, SameAway, Gave;
      var list := lists[cl];
      ghost var rows, out := Rows(), depot.out;
      RowKnown(g, rows, out, cl);
      var length := list.Push(ptr);
      PushGave(g, rows, out, cl, ptr, list.State());
      TotalUpdate(rows, cl, list.State());
      OneMoreObject(rows[cl].length, g.sizes[cl]);
      assert Rows() == rows[cl := list.State()];
      if length > list.maxLength {
        ghost var rows1 := Rows();
        ListTooLong(depot, cl);
        GaveThen(rows, out, rows1, out, Rows(), depot.out, cl, ptr);
      } else {
        size := size + list.objectSize;
      }
      tooLarge := size > maxSize;
    }

    /** Scavenging one list: half of what was not needed lately goes back. */
    method ScavengeList(depot: Depot, cl: ClassId)
      requires Valid(depot) && cl < |lists|
      modifies this`size, lists[cl], depot
      ensures Valid(depot) && SameAway(old(Rows()), old(depot.out), Rows(), depot.out)
      ensures Sane(old(lists[cl].State())) && lists[cl].State() == Scavenged(old(lists[cl].State()), g.batch[cl])
    {
      hide Total, RowsOk, Elements, Distinct;
      ghost var rows, out := Rows(), depot.out;
      RowKnown(g, rows, out, cl);
      SameAwayNone(rows, out);
      var list := lists[cl];
      var lowmark := list.lowater;
      if lowmark > 0 {
        var drop := if lowmark > 1 then lowmark / 2 else 1;
        GiveBack(depot, cl, drop, 0);
        ghost var rows1, out1 := Rows(), depot.out;
        RowKnown(g, rows1, out1, cl);
        var batch := g.batch[cl];
        if list.maxLength > batch {
          FewerBatches(list.maxLength, batch);
          SetLimit(depot, cl, if list.maxLength - batch > batch then list.maxLength - batch else batch, list.lengthOverages);
          AwayTwice(rows, out, rows1, out1, Rows(), depot.out);
        }
      }
      ghost var rows2 := Rows();
      RowKnown(g, rows2, depot.out, cl);
      list.ClearLowWaterMark();
      LowWaterCleared(g, rows2, depot.out, cl, list.State());
      assert Rows() == rows2[cl := list.State()];
      AwayTwice(rows, out, rows2, depot.out, Rows(), depot.out);
    }

    /** Scavenging all lists. */
    method ScavengeLists(depot: Depot)
      requires Valid(depot)
      modifies this`size, lists, depot
      ensures Valid(depot) && SameAway(old(Rows()), old(depot.out), Rows(), depot.out)
      ensures forall c | 0 <= c < |lists| :: IsScavenged(lists[c].State(), old(lists[c].State()), g.batch[c])
    {
      hide Total, RowsOk, Elements, Distinct, SameAway, Scavenged, Sane;
      ghost var rows, out := Rows(), depot.out;
      RowsLength(g, rows, out);
      SameAwayNone(rows, out);
      for cl := 0 to |lists|
        invariant Valid(depot) && SameAway(rows, out, Rows(), depot.out)
        invariant forall c | 0 <= c < cl :: IsScavenged(lists[c].State(), rows[c], g.batch[c])
        invariant forall c | cl <= c < |lists| :: lists[c].State() == rows[c]
      {
        ghost var rows1, out1 := Rows(), depot.out;
        ScavengeList(depot, cl);
        AwayTwice(rows, out, rows1, out1, Rows(), depot.out);
      }
    }

    /** Gives everything back. */
    method Cleanup(depot: Depot)
      requires Valid(depot)
      modifies this`size, lists, depot
      ensures Valid(depot) && SameAway(old(Rows()), old(depot.out), Rows(), depot.out)
      ensures forall c | 0 <= c < |lists| :: lists[c].list == []
      ensures size == 0
    {
      hide Total, RowsOk, Elements, Distinct, SameAway;
      ghost var rows, out := Rows(), depot.out;
      RowsLength(g, rows, out);
      SameAwayNone(rows, out);
      for cl := 0 to |lists|
        invariant Valid(depot) && SameAway(rows, out, Rows(), depot.out)
        invariant forall c | 0 <= c < cl :: lists[c].list == []
      {
        ghost var rows1, out1 := Rows(), depot.out;
        RowKnown(g, rows1, out1, cl);
        if lists[cl].length > 0 {
          GiveAllBack(depot, cl);
          AwayTwice(rows, out, rows1, out1, Rows(), depot.out);
        }
      }
      NoBytes(g, Rows(), depot.out);
    }

    method GiveAllBack(depot: Depot, cl: ClassId)
      requires Valid(depot) && cl < |lists|
      modifies this`size, lists[cl], depot
      ensures Valid(depot) && SameAway(old(Rows()), old(depot.out), Rows(), depot.out)
      ensures lists[cl].list == []
    {
      hide Total, RowsOk, Elements, Distinct;
      ghost var rows, out := Rows(), depot.out;
      RowKnown(g, rows, out, cl);
      ReleaseToCentralCache(depot, cl, lists[cl].length);
      ghost var k := |rows[cl].list|;
      Released(g, rows, out, cl, k);
      TotalUpdate(rows, cl, Popped(rows[cl], k));
      LessBy(rows[cl].length, k, g.sizes[cl]);
      assert Rows()[cl] == Popped(rows[cl], k);
    }
  }

  // ---- All caches together ----

  /** The lists of all caches are in order, and no object is on those of two caches. */
  ghost predicate Shared(g: Config, all: seq<seq<Row>>, out: seq<set<Obj>>) {
    && |out| == |g.sizes|
    && (forall i | 0 <= i < |all| :: RowsOk(g, all[i], out))
    && (forall i, j, c | 0 <= i < j < |all| && 0 <= c < |out| :: Elements(all[i][c].list) !! Elements(all[j][c].list))
  }

  ghost predicate OnSome(all: seq<seq<Row>>, c: ClassId, o: Obj) {
    exists i :: 0 <= i < |all| && c < |all[i]| && o in all[i][c].list
  }

  /** The objects of a class that are out and on no cache's list: the application has them. */
  ghost function Application(all: seq<seq<Row>>, out: seq<set<Obj>>, c: ClassId): set<Obj>
    requires c < |out|
  {
    set o | o in out[c] && !OnSome(all, c, o)
  }

  /** What one cache does to the objects it has away, while it takes none from others. */
  ghost predicate Keeps(all: seq<seq<Row>>, out: seq<set<Obj>>, i: nat, rows': seq<Row>, out': seq<set<Obj>>) {
    && i < |all| && |all[i]| == |out| == |rows'| == |out'|
    && forall c, o | 0 <= c < |out| && o in Away(all[i], out, c) && OnSome(all, c, o) :: o in Away(rows', out', c)
  }

  /** The other caches' objects are away from a cache. */
  lemma OthersAway(g: Config, all: seq<seq<Row>>, out: seq<set<Obj>>, i: nat, j: nat, c: nat)
    requires Shared(g, all, out) && i < |all| && j < |all| && i != j && c < |out|
    ensures |all[i]| == |all[j]| == |out| && Elements(all[j][c].list) <= Away(all[i], out, c)
  {
    assert RowsOk(g, all[i], out) && RowsOk(g, all[j], out);
    assert RowOk(all[j][c], g.sizes[c], g.batch[c], out[c]);
    assert Elements(all[if i < j then i else j][c].list) !! Elements(all[if i < j then j else i][c].list);
  }

  lemma OneStep(g: Config, all: seq<seq<Row>>, out: seq<set<Obj>>, i: nat, rows': seq<Row>, out': seq<set<Obj>>)
    requires Shared(g, all, out) && Keeps(all, out, i, rows', out') && RowsOk(g, rows', out')
    ensures Shared(g, all[i := rows'], out')
  {
    hide RowOk, Away;
    var all' := all[i := rows'];
    forall j: nat, c: nat | j < |all| && j != i && c < |out|
      ensures c < |all[j]| && Elements(all[j][c].list) <= out'[c] && Elements(all[j][c].list) !! Elements(rows'[c].list)
    {
      OthersAway(g, all, out, i, j, c);
      forall o | o in Elements(all[j][c].list) ensures o in out'[c] && o !in Elements(rows'[c].list) {
        assert OnSome(all, c, o);
        AwayMeans(rows', out', c, o);
      }
    }
    forall j | 0 <= j < |all'| ensures RowsOk(g, all'[j], out') {
      if j != i {
        StillOk(g, all[j], out, out');
      }
    }
  }

  lemma AwayMeans(rows: seq<Row>, out: seq<set<Obj>>, c: nat, o: Obj)
    requires c < |rows| == |out|
    ensures o in Away(rows, out, c) <==> o in out[c] && o !in rows[c].list
  {
  }

  lemma StillOk(g: Config, rows: seq<Row>, out: seq<set<Obj>>, out': seq<set<Obj>>)
    requires RowsOk(g, rows, out) && |out'| == |out| && forall c | 0 <= c < |out| :: Elements(rows[c].list) <= out'[c]
    ensures RowsOk(g, rows, out')
  {
    forall c | 0 <= c < |rows| ensures RowOk(rows[c], g.sizes[c], g.batch[c], out'[c]) {
      assert RowOk(rows[c], g.sizes[c], g.batch[c], out[c]);
    }
  }

  /** The application's objects are those away from any one cache and on no other's list. */
  lemma ApplicationOf(all: seq<seq<Row>>, out: seq<set<Obj>>, i: nat, rows': seq<Row>, out': seq<set<Obj>>, c: ClassId, o: Obj)
    requires i < |all| && c < |out| == |out'| == |rows'| == |all[i]|
    ensures o in Application(all, out, c) <==> o in Away(all[i], out, c) && !OnOther(all, i, c, o)
    ensures o in Application(all[i := rows'], out', c) <==> o in Away(rows', out', c) && !OnOther(all, i, c, o)
  {
    var all': seq<seq<Row>> := all[i := rows'];
    assert o in all[i][c].list ==> OnSome(all, c, o);
    assert o in all'[i][c].list ==> OnSome(all', c, o);
    if OnOther(all, i, c, o) {
      var j :| 0 <= j < |all| && j != i && c < |all[j]| && o in all[j][c].list;
      assert o in all'[j][c].list;
    }
  }

  ghost predicate OnOther(all: seq<seq<Row>>, i: nat, c: ClassId, o: Obj) {
    exists j :: 0 <= j < |all| && j != i && c < |all[j]| && o in all[j][c].list
  }

  /** Moving objects between a cache and the central caches changes nothing for the
      application or the other caches. */
  lemma SharedSame(g: Config, all: seq<seq<Row>>, out: seq<set<Obj>>, i: nat, rows': seq<Row>, out': seq<set<Obj>>)
    requires Shared(g, all, out) && i < |all| && RowsOk(g, rows', out') && SameAway(all[i], out, rows', out')
    ensures Shared(g, all[i := rows'], out') && |out'| == |out|
    ensures forall c | 0 <= c < |out| :: Application(all[i := rows'], out', c) == Application(all, out, c)
  {
    OneStep(g, all, out, i, rows', out');
    forall c, o | 0 <= c < |out| ensures o in Application(all[i := rows'], out', c) <==> o in Application(all, out, c) {
      ApplicationOf(all, out, i, rows', out', c, o);
    }
  }

  /** An object given to the client is one the application did not have. */
  lemma SharedTook(g: Config, all: seq<seq<Row>>, out: seq<set<Obj>>, i: nat, rows': seq<Row>, out': seq<set<Obj>>,
                   cl: ClassId, found: bool, ptr: Obj)
    requires Shared(g, all, out) && i < |all| && RowsOk(g, rows', out') && Took(all[i], out, rows', out', cl, found, ptr)
    ensures Shared(g, all[i := rows'], out') && |out'| == |out|
    ensures found ==> ptr !in Application(all, out, cl)
    ensures forall c | 0 <= c < |out| ::
      Application(all[i := rows'], out', c) == Application(all, out, c) + (if found && c == cl then {ptr} else {})
  {
    OneStep(g, all, out, i, rows', out');
    forall c, o | 0 <= c < |out|
      ensures o in Application(all[i := rows'], out', c) <==> o in Application(all, out, c) || (found && c == cl && o == ptr)
    {
      ApplicationOf(all, out, i, rows', out', c, o);
      if found && c == cl && o == ptr && OnOther(all, i, c, o) {
        var j :| 0 <= j < |all| && j != i && c < |all[j]| && o in all[j][c].list;
        OthersAway(g, all, out, i, j, c);
      }
    }
  }

  /** An object the application gives back is one it has no more. */
  lemma SharedGave(g: Config, all: seq<seq<Row>>, out: seq<set<Obj>>, i: nat, rows': seq<Row>, out': seq<set<Obj>>, cl: ClassId, ptr: Obj)
    requires Shared(g, all, out) && i < |all| && RowsOk(g, rows', out') && Gave(all[i], out, rows', out', cl, ptr)
    requires ptr in Application(all, out, cl)
    ensures Shared(g, all[i := rows'], out') && |out'| == |out|
    ensures forall c | 0 <= c < |out| ::
      Application(all[i := rows'], out', c) == Application(all, out, c) - (if c == cl then {ptr} else {})
  {
    OneStep(g, all, out, i, rows', out');
    forall c, o | 0 <= c < |out|
      ensures o in Application(all[i := rows'], out', c) <==> o in Application(all, out, c) && !(c == cl && o == ptr)
    {
      ApplicationOf(all, out, i, rows', out', c, o);
    }
  }

  /** A cache without objects may join or leave. */
  lemma SharedJoin(g: Config, all: seq<seq<Row>>, out: seq<set<Obj>>, rows: seq<Row>)
    requires Shared(g, all, out) && RowsOk(g, rows, out) && forall c | 0 <= c < |rows| :: rows[c].list == []
    ensures Shared(g, [rows] + all, out)
    ensures forall c | 0 <= c < |out| :: Application([rows] + all, out, c) == Application(all, out, c)
  {
    var all' := [rows] + all;
    forall c, o | 0 <= c < |out| ensures OnSome(all', c, o) <==> OnSome(all, c, o) {
      if OnSome(all, c, o) {
        var i :| 0 <= i < |all| && c < |all[i]| && o in all[i][c].list;
        assert all'[i + 1] == all[i];
      }
    }
  }

  lemma SharedLeave(g: Config, all: seq<seq<Row>>, out: seq<set<Obj>>, i: nat)
    requires Shared(g, all, out) && i < |all| && forall c | 0 <= c < |all[i]| :: all[i][c].list == []
    ensures Shared(g, all[..i] + all[i + 1..], out)
    ensures forall c | 0 <= c < |out| :: Application(all[..i] + all[i + 1..], out, c) == Application(all, out, c)
  {
    var all' := all[..i] + all[i + 1..];
    forall c, o | 0 <= c < |out| ensures OnSome(all', c, o) <==> OnSome(all, c, o) {
      if OnSome(all, c, o) {
        var j :| 0 <= j < |all| && c < |all[j]| && o in all[j][c].list;
        assert all'[if j < i then j else j - 1] == all[j];
      }
    }
  }

  // ---- The room the caches share ----

  ghost function SumOf(w: seq<int>): int { if w == [] then 0 else w[0] + SumOf(w[1..]) }

  lemma {:induction false} SumOfUpdate(w: seq<int>, i: nat, v: int)
    requires i < |w|
    ensures SumOf(w[i := v]) == SumOf(w) - w[i] + v
  {
    if i == 0 {
      assert w[0 := v] == [v] + w[1..];
    } else {
      SumOfUpdate(w[1..], i - 1, v);
      assert w[i := v] == [w[0]] + w[1..][i - 1 := v];
    }
  }

  lemma {:induction false} SumOfWithout(w: seq<int>, i: nat)
    requires i < |w|
    ensures SumOf(w[..i] + w[i + 1..]) == SumOf(w) - w[i]
  {
    if i == 0 {
      assert w[..0] + w[1..] == w[1..];
    } else {
      SumOfWithout(w[1..], i - 1);
      assert (w[..i] + w[i + 1..])[1..] == w[1..][..i - 1] + w[1..][i..];
    }
  }

  /** A cache's room after the share of each has changed: it never grows, and falls in
      proportion if the share does. */
  ghost function Shrunk(size: int, share: int, before: int): int {
    if Ratio(share, before) < 1.0 then (size as real * Ratio(share, before)).Floor else size
  }

  /** No cache's room grows or falls below nothing. */
  lemma ShrunkLess(size: int, share: int, before: int)
    requires size >= 0 && share >= 0
    ensures 0 <= Shrunk(size, share, before) <= size
    ensures share < before ==> size > 0 ==> Shrunk(size, share, before) < size
  {
    hide Ratio;
    var ratio := Ratio(share, before);
    RatioBounds(share, before);
    if ratio < 1.0 {
      ScaledFloor(size, size as real, ratio);
    }
  }

  lemma RatioBounds(share: int, before: int)
    requires share >= 0
    ensures Ratio(share, before) >= 0.0 && (share < before ==> Ratio(share, before) < 1.0)
  {
    Quotient(share as real, if before > 1 then before as real else 1.0);
  }

  lemma ScaledFloor(n: int, x: real, r: real)
    requires n >= 0 && x == n as real && 0.0 <= r < 1.0
    ensures 0 <= (x * r).Floor <= n && (n > 0 ==> (x * r).Floor < n)
  {
    if n > 0 {
      var p := x * r;
      Product(x, r, p);
      FloorBelow(p, x, n);
    }
  }

  lemma FloorBelow(y: real, x: real, n: int)
    requires 0.0 <= y < x && x == n as real
    ensures 0 <= y.Floor < n
  {
  }

  lemma Quotient(a: real, d: real)
    requires a >= 0.0 && d > 0.0
    ensures a / d >= 0.0 && (a < d ==> a / d < 1.0)
  {
    Factor(a, d, a / d);
  }

  lemma Factor(a: real, d: real, q: real)
    requires d > 0.0 && d * q == a
    ensures (a >= 0.0 ==> q >= 0.0) && (a < d ==> q < 1.0)
  {
    Product(d, q, a);
  }

  lemma Product(x: real, r: real, p: real)
    requires x > 0.0 && p == x * r
    ensures r >= 0.0 <==> p >= 0.0
    ensures r < 1.0 <==> p < x
  {
    assert x * (1.0 - r) == x - x * r;
  }

  function Ratio(share: int, before: int): real {
    share as real / (if before > 1 then before as real else 1.0)
  }

  ghost function MaxSizes(heaps: seq<ThreadCache>): seq<int>
    reads heaps
  {
    seq(|heaps|, i requires 0 <= i < |heaps| reads heaps => heaps[i].maxSize)
  }

  ghost function ListsOf(heaps: seq<ThreadCache>): set<FreeList> {
    set h, l | h in heaps && l in h.lists :: l
  }

  ghost function RowsAt(heaps: seq<ThreadCache>, i: nat): seq<Row>
    requires i < |heaps|
    reads ListsOf(heaps)
  {
    assert forall l | l in heaps[i].lists :: l in ListsOf(heaps);
    heaps[i].Rows()
  }

  ghost function RowsOfAll(heaps: seq<ThreadCache>): seq<seq<Row>>
    reads ListsOf(heaps)
  {
    seq(|heaps|, i requires 0 <= i < |heaps| reads ListsOf(heaps) => RowsAt(heaps, i))
  }

  /** All thread caches, the newest first, and the room that is not given to any. */
  class ThreadHeaps {
    const g: Config
    const depot: Depot
    var heaps: seq<ThreadCache>
    var nextSteal: ThreadCache?
    var unclaimed: int
    var overall: int
    var perThread: int

    /** The room the caches have. */
    ghost function Claimed(): int
      reads this`heaps, heaps
    {
      SumOf(MaxSizes(heaps))
    }

    ghost predicate Listed()
      reads this`heaps, this`nextSteal
    {
      && (forall i, j | 0 <= i < j < |heaps| :: heaps[i] != heaps[j])
      && (nextSteal != null ==> nextSteal in heaps)
    }

    /** The room claimed by the caches and the unclaimed room make up the whole, and the
        next cache to steal from is a live one, if there is one. */
    ghost predicate Valid()
      reads this, heaps
    {
      Listed() && unclaimed + Claimed() == overall && overall >= MIN_THREAD_CACHE
    }

    ghost function AllRows(): seq<seq<Row>>
      reads this`heaps, ListsOf(heaps)
    {
      RowsOfAll(heaps)
    }

    /** No list belongs to two caches. */
    ghost predicate Separate()
      reads this`heaps
    {
      forall i, j, l | 0 <= i < j < |heaps| && l in heaps[i].lists :: l !in heaps[j].lists
    }

    /** All caches are in order, and every object that is out is on one of their lists,
        once, or else with the application. */
    ghost predicate Consistent()
      reads this`heaps, heaps`size, ListsOf(heaps), depot
    {
      && g.Valid() && Separate() && Shared(g, AllRows(), depot.out)
      && forall i | 0 <= i < |heaps| :: heaps[i].g == g && heaps[i].Apart() && heaps[i].size == Total(RowsAt(heaps, i))
    }

    /** The objects of a class that the application has. */
    ghost function App(c: ClassId): set<Obj>
      requires c < |depot.out|
      reads this`heaps, ListsOf(heaps), depot
    {
      Application(AllRows(), depot.out, c)
    }

    /** What a consistent state says of one cache. */
    lemma OneCache(h: ThreadCache) returns (i: nat)
      requires Consistent() && h in heaps
      ensures i < |heaps| && heaps[i] == h && AllRows()[i] == h.Rows() && h.Valid(depot) && h.g == g && |depot.out| == |g.sizes|
    {
      hide RowsOk, Total;
      i :| 0 <= i < |heaps| && heaps[i] == h;
      assert AllRows()[i] == RowsAt(heaps, i) && RowsOk(g, AllRows()[i], depot.out);
    }

    /** A list of one cache is not one of another's. */
    lemma NotShared(i: nat, j: nat)
      requires Separate() && i < |heaps| && j < |heaps| && i != j
      ensures forall l | l in heaps[j].lists :: l !in heaps[i].lists
    {
    }

    /** The caches are consistent if all but one have not changed and that one is in order. */
    lemma StillConsistent(i: nat, all: seq<seq<Row>>)
      requires g.Valid() && Separate() && |all| == |heaps| && i < |heaps|
      requires Shared(g, all[i := heaps[i].Rows()], depot.out)
      requires forall j | 0 <= j < |heaps| :: heaps[j].g == g && heaps[j].Apart()
      requires heaps[i].size == Total(heaps[i].Rows())
      requires forall j | 0 <= j < |heaps| && j != i :: RowsAt(heaps, j) == all[j] && heaps[j].size == Total(all[j])
      ensures Consistent() && AllRows() == all[i := heaps[i].Rows()]
    {
      hide Total, Shared;
      assert RowsAt(heaps, i) == heaps[i].Rows();
      assert AllRows() == all[i := heaps[i].Rows()];
    }

    // ---- Objects ----

    /** Gives the application an object it did not have, if its cache or the central cache
        has one. */
    method Allocate(c: ThreadCache, cl: ClassId) returns (found: bool, ptr: Obj)
      requires Consistent() && c in heaps && cl < |c.lists| == |depot.out|
      modifies c`size, c.lists, depot
      ensures Consistent() && |depot.out| == old(|depot.out|)
      ensures found ==> ptr !in old(App(cl))
      ensures forall d | 0 <= d < |depot.out| :: App(d) == old(App(d)) + (if found && d == cl then {ptr} else {})
      ensures !found ==> old(c.lists[cl].list) == [] && c.g == g && |g.batch| == |c.lists| && old(depot.Next(cl, AtMost(g.batch[cl], c.lists[cl].maxLength))) == []
    {
      hide RowsOk, Total, Shared, Took, SameAway, Application;
      ghost var i := OneCache(c);
      ghost var all, out := AllRows(), depot.out;
      found, ptr := c.Allocate(depot, cl);
      forall j | 0 <= j < |heaps| && j != i ensures RowsAt(heaps, j) == all[j] && heaps[j].size == Total(all[j]) {
        NotShared(i, j);
        assert all[j] == old(RowsAt(heaps, j)) == old(heaps[j].Rows());
        assert c.lists[cl] in heaps[i].lists;
        assert forall d | 0 <= d < |heaps[j].lists| :: heaps[j].lists[d] in heaps[j].lists;
        assert heaps[j].Rows() == old(heaps[j].Rows());
      }
      SharedTook(g, all, out, i, c.Rows(), depot.out, cl, found, ptr);
      StillConsistent(i, all);
    }

    /** The position of a cache in the list. */
    method Find(h: ThreadCache) returns (i: int)
      requires h in heaps
      ensures 0 <= i < |heaps| && heaps[i] == h
    {
      i :| 0 <= i < |heaps| && heaps[i] == h;
    }

    /** The cache after h, null at the end. */
    method Next(h: ThreadCache) returns (n: ThreadCache?)
      requires Listed() && h in heaps
      ensures forall i | 0 <= i < |heaps| && heaps[i] == h :: n == if i + 1 < |heaps| then heaps[i + 1] else null
      ensures n != h && (n != null ==> n in heaps)
    {
      var i := Find(h);
      n := if i + 1 < |heaps| then heaps[i + 1] else null;
    }

    /** Gives a cache more room: unclaimed room if there is any, else room of one of the
        next caches in turn that has more than the minimum. What the caches have and what
        is unclaimed stays the same in all, the given cache included. */
    method IncreaseCacheLimitLocked(c: ThreadCache)
      requires Listed() && (heaps == [] ==> unclaimed > 0)
      modifies this`unclaimed, this`nextSteal, c`maxSize, heaps`maxSize
      ensures Listed() && c.maxSize in {old(c.maxSize), old(c.maxSize) + STEAL_AMOUNT}
      ensures unclaimed + Claimed() + (if c in heaps then 0 else c.maxSize)
              == old(unclaimed + Claimed() + (if c in heaps then 0 else c.maxSize))
      ensures unclaimed == if old(unclaimed) > 0 then old(unclaimed) - STEAL_AMOUNT else old(unclaimed)
      ensures c.maxSize == old(c.maxSize) ==> unclaimed <= 0
      ensures forall h | h in heaps && h != c ::
        h.maxSize == old(h.maxSize) || (h.maxSize == old(h.maxSize) - STEAL_AMOUNT && MIN_THREAD_CACHE < old(h.maxSize) && old(unclaimed) <= 0)
      // Stealing looks at ten caches before it gives up.
      ensures c.maxSize == old(c.maxSize) && |heaps| <= STEAL_TRIES ==> forall h | h in heaps :: Poor(h, c)
      ensures heaps == [] ==> nextSteal == old(nextSteal)
    {
      hide SumOf, Claimed, Scanned;
      ghost var claimed := Claimed();
      if unclaimed > 0 {
        unclaimed := unclaimed - STEAL_AMOUNT;
        GrantTo(c, STEAL_AMOUNT);
        return;
      }
      ghost var start := Position(nextSteal);
      ghost var pos, wrapped := start, false;
      ScanStart(c, start);
      var i := 0;
      while i < STEAL_TRIES
        invariant Listed() && unclaimed == old(unclaimed) && Claimed() == claimed && c.maxSize == old(c.maxSize)
        invariant heaps != [] && 0 <= i && forall h | h in heaps :: h.maxSize == old(h.maxSize)
        invariant At(pos) && Scanned(c, start, pos, wrapped, i)
      {
        if nextSteal == null {
          ScanAround(c, start, pos, wrapped, i);
          nextSteal := heaps[0];
          pos, wrapped := 0, true;
        }
        if nextSteal != c && nextSteal.maxSize > MIN_THREAD_CACHE {
          StealFor(c, pos);
          return;
        }
        ScanOn(c, start, pos, wrapped, i);
        i := i + 1;
        StepOn(pos);
        pos := pos + 1;
      }
      ScanDone(c, start, pos, wrapped, i);
    }

    /** The next cache to steal from is the one at this position; the end stands for null. */
    ghost predicate At(pos: int)
      reads this`heaps, this`nextSteal
    {
      0 <= pos <= |heaps| && nextSteal == if pos < |heaps| then heaps[pos] else null
    }

    /** Moves room from the next cache to steal from to c. */
    method StealFor(c: ThreadCache, ghost pos: int)
      requires Listed() && At(pos) && nextSteal != null && nextSteal != c
      modifies this`nextSteal, c`maxSize, nextSteal`maxSize
      ensures Listed() && c.maxSize == old(c.maxSize) + STEAL_AMOUNT
      ensures old(nextSteal).maxSize == old(nextSteal.maxSize) - STEAL_AMOUNT
      ensures Claimed() == old(Claimed()) + (if c in heaps then 0 else -STEAL_AMOUNT)
    {
      hide Claimed;
      GrantTo(nextSteal, -STEAL_AMOUNT);
      GrantTo(c, STEAL_AMOUNT);
      StepOn(pos);
    }

    method StepOn(ghost pos: int)
      requires Listed() && At(pos) && nextSteal != null
      modifies this`nextSteal
      ensures Listed() && At(pos + 1)
    {
      assert heaps[pos] == nextSteal;
      nextSteal := Next(nextSteal);
    }

    /** Nothing can be stolen from the i caches from `start` up to `pos`, around the end. */
    ghost predicate Scanned(c: ThreadCache, start: int, pos: int, wrapped: bool, i: int)
      reads this`heaps, heaps`maxSize
    {
      && 0 <= start <= |heaps| && 0 <= pos <= |heaps|
      && (AllPoor(c, 0, |heaps|) ||
          if wrapped then i == |heaps| - start + pos && AllPoor(c, start, |heaps|) && AllPoor(c, 0, pos)
          else i == pos - start && AllPoor(c, start, pos))
    }

    lemma ScanStart(c: ThreadCache, start: nat)
      requires start <= |heaps|
      ensures Scanned(c, start, start, false, 0)
    {
    }

    lemma ScanOn(c: ThreadCache, start: int, pos: int, wrapped: bool, i: int)
      requires Scanned(c, start, pos, wrapped, i) && pos < |heaps| && Poor(heaps[pos], c)
      ensures Scanned(c, start, pos + 1, wrapped, i + 1)
    {
    }

    lemma ScanAround(c: ThreadCache, start: int, pos: int, wrapped: bool, i: int)
      requires Scanned(c, start, pos, wrapped, i) && pos == |heaps|
      ensures Scanned(c, start, 0, true, i)
    {
    }

    lemma ScanDone(c: ThreadCache, start: int, pos: int, wrapped: bool, i: int)
      requires Scanned(c, start, pos, wrapped, i)
      ensures i >= |heaps| ==> forall h | h in heaps :: Poor(h, c)
    {
    }

    /** Nothing can be stolen from h for c. */
    ghost predicate Poor(h: ThreadCache, c: ThreadCache)
      reads h`maxSize
    {
      h == c || h.maxSize <= MIN_THREAD_CACHE
    }

    ghost predicate AllPoor(c: ThreadCache, from: int, to: int)
      requires 0 <= from && to <= |heaps|
      reads this`heaps, heaps`maxSize
    {
      forall j | from <= j < to :: Poor(heaps[j], c)
    }

    /** Where a cache is in the list; null stands for its end. */
    ghost function Position(h: ThreadCache?): (i: nat)
      requires h != null ==> h in heaps
      reads this`heaps
      ensures i <= |heaps| && h == if i < |heaps| then heaps[i] else null
    {
      if h == null then |heaps| else var i: nat :| i < |heaps| && heaps[i] == h; i
    }

    /** SetMaxSize by a difference. */
    method GrantTo(c: ThreadCache, n: int)
      requires Listed()
      modifies c`maxSize
      ensures c.maxSize == old(c.maxSize) + n
      ensures Claimed() == old(Claimed()) + (if c in heaps then n else 0)
    {
      ghost var sizes := MaxSizes(heaps);
      c.maxSize := c.maxSize + n;
      if c in heaps {
        ghost var i :| 0 <= i < |heaps| && heaps[i] == c;
        SumOfUpdate(sizes, i, c.maxSize);
        assert MaxSizes(heaps) == sizes[i := c.maxSize];
      } else {
        assert MaxSizes(heaps) == sizes;
      }
    }

    /** Init's share of a new cache: some room, at least the minimum, even if that leaves
        less than none unclaimed. */
    method InitRoom(c: ThreadCache)
      requires Valid() && c !in heaps
      modifies this`unclaimed, this`nextSteal, c`maxSize, heaps`maxSize
      ensures Listed() && unclaimed + Claimed() + c.maxSize == overall
      ensures c.maxSize in {STEAL_AMOUNT, MIN_THREAD_CACHE} && (c.maxSize == MIN_THREAD_CACHE ==> unclaimed < 0)
      ensures heaps == [] ==> nextSteal == old(nextSteal)
    {
      hide SumOf, Claimed;
      GrantTo(c, -c.maxSize);
      if heaps == [] {
        NothingClaimed();
      }
      IncreaseCacheLimitLocked(c);
      if c.maxSize == 0 {
        GrantTo(c, MIN_THREAD_CACHE);
        unclaimed := unclaimed - MIN_THREAD_CACHE;
      }
    }

    lemma NothingClaimed()
      requires heaps == []
      ensures Claimed() == 0
    {
    }

    constructor (g: Config, depot: Depot)
      requires g.Valid() && |depot.out| == |g.sizes|
      ensures Valid() && heaps == [] && nextSteal == null && overall == 8 * MAX_THREAD_CACHE
      ensures this.g == g && this.depot == depot && Consistent() && forall c | 0 <= c < |depot.out| :: App(c) == depot.out[c]
    {
      this.g, this.depot := g, depot;
      heaps, nextSteal := [], null;
      overall, unclaimed, perThread := 8 * MAX_THREAD_CACHE, 8 * MAX_THREAD_CACHE, MAX_THREAD_CACHE;
    }

    /** Makes a new cache, with empty lists, the first of the list. */
    method NewHeap() returns (c: ThreadCache)
      requires Valid() && Consistent()
      modifies this, heaps`maxSize
      ensures Valid() && heaps == [c] + old(heaps) && fresh(c) && overall == old(overall)
      ensures c.maxSize in {STEAL_AMOUNT, MIN_THREAD_CACHE}
      ensures Consistent() && forall d | 0 <= d < |depot.out| :: App(d) == old(App(d))
    {
      hide SumOf, RowsOk, Total, Shared, Application;
      KnownShared();
      SharedWidth(g, AllRows(), depot.out);
      c := new ThreadCache(g, depot);
      assert forall j, l | 0 <= j < |heaps| && l in c.lists :: l !in heaps[j].lists;
      forall j | 0 <= j < |heaps| ensures RowsAt(heaps, j) == old(RowsAt(heaps, j)) {
        assert heaps[j].Rows() == old(heaps[j].Rows());
      }
      assert AllRows() == old(AllRows());
      Join(c);
    }

    /** Adds a cache with empty lists. */
    method Join(c: ThreadCache)
      requires Valid() && Consistent() && c !in heaps && c.g == g && c.Valid(depot)
      requires forall i | 0 <= i < |c.lists| :: c.lists[i].list == []
      requires forall j, l | 0 <= j < |heaps| && l in c.lists :: l !in heaps[j].lists
      modifies this, c`maxSize, heaps`maxSize
      ensures Valid() && heaps == [c] + old(heaps) && overall == old(overall)
      ensures c.maxSize in {STEAL_AMOUNT, MIN_THREAD_CACHE}
      ensures Consistent() && forall d | 0 <= d < |depot.out| :: App(d) == old(App(d))
    {
      hide SumOf, RowsOk, Total, Shared, Application, Consistent, ListsOf;
      ghost var all, heaps0 := AllRows(), heaps;
      KnownShared();
      SharedWidth(g, all, depot.out);
      WereNow();
      InitRoom(c);
      if heaps == [] {
        nextSteal := c;
      }
      Added(c);
      heaps := [c] + heaps;
      forall j | 0 <= j < |heaps0| ensures RowsAt(heaps0, j) == all[j] && heaps0[j].size == Total(all[j]) {
        assert all[j] == old(RowsAt(heaps0, j)) == old(heaps0[j].Rows()) == heaps0[j].Rows();
      }
      JoinConsistent(c, heaps0, all);
    }

    /** The caches before another one joined them. */
    ghost predicate Were(heaps0: seq<ThreadCache>, all: seq<seq<Row>>)
      reads heaps0`size, ListsOf(heaps0)
    {
      && |all| == |heaps0|
      && (forall j | 0 <= j < |heaps0| :: heaps0[j].g == g && heaps0[j].Apart() && RowsAt(heaps0, j) == all[j] && heaps0[j].size == Total(all[j]))
      && (forall i, j, l | 0 <= i < j < |heaps0| && l in heaps0[i].lists :: l !in heaps0[j].lists)
    }

    lemma JoinConsistent(c: ThreadCache, heaps0: seq<ThreadCache>, all: seq<seq<Row>>)
      requires heaps == [c] + heaps0 && Were(heaps0, all) && Shared(g, all, depot.out)
      requires g.Valid() && c.g == g && c.Valid(depot) && forall i | 0 <= i < |c.lists| :: c.lists[i].list == []
      requires forall j, l | 0 <= j < |heaps0| && l in c.lists :: l !in heaps0[j].lists
      ensures Consistent() && |depot.out| == |g.sizes|
      ensures forall d | 0 <= d < |depot.out| :: App(d) == Application(all, depot.out, d)
    {
      hide Total, Shared, RowsOk, Application;
      forall j | 0 < j < |heaps| ensures RowsAt(heaps, j) == all[j - 1] && heaps[j] == heaps0[j - 1] {
        assert RowsAt(heaps0, j - 1) == all[j - 1];
      }
      assert RowsAt(heaps, 0) == c.Rows();
      assert AllRows() == [c.Rows()] + all;
      SharedJoin(g, all, depot.out, c.Rows());
      SharedWidth(g, all, depot.out);
    }

    static lemma SharedWidth(g: Config, all: seq<seq<Row>>, out: seq<set<Obj>>)
      requires Shared(g, all, out)
      ensures |out| == |g.sizes|
    {
    }

    lemma WereNow()
      requires Consistent()
      ensures Were(heaps, AllRows())
    {
      hide Total, Shared;
    }

    /** The caches after one of them, without objects, has left. */
    lemma LeaveConsistent(heaps0: seq<ThreadCache>, k: nat, all: seq<seq<Row>>)
      requires k < |heaps0| && heaps == heaps0[..k] + heaps0[k + 1..] && Were(heaps0, all) && Shared(g, all, depot.out)
      requires g.Valid() && forall i | 0 <= i < |all[k]| :: all[k][i].list == []
      ensures Consistent() && |depot.out| == |g.sizes|
      ensures forall d | 0 <= d < |depot.out| :: App(d) == Application(all, depot.out, d)
    {
      hide Total, Shared, RowsOk, Application;
      forall j | 0 <= j < |heaps| ensures var i := if j < k then j else j + 1; heaps[j] == heaps0[i] && RowsAt(heaps, j) == all[i] {
        var i := if j < k then j else j + 1;
        assert RowsAt(heaps0, i) == all[i];
      }
      assert AllRows() == all[..k] + all[k + 1..];
      SharedLeave(g, all, depot.out, k);
      SharedWidth(g, all, depot.out);
    }

    lemma Added(c: ThreadCache)
      ensures SumOf(MaxSizes([c] + heaps)) == c.maxSize + Claimed()
    {
      assert MaxSizes([c] + heaps) == [c.maxSize] + MaxSizes(heaps);
      assert ([c.maxSize] + MaxSizes(heaps))[1..] == MaxSizes(heaps);
    }

    /** Takes a cache, emptied first, off the list. */
    method DeleteCache(c: ThreadCache)
      requires Valid() && Consistent() && c in heaps
      modifies this, c`size, c.lists, depot
      ensures Valid() && c !in heaps && overall == old(overall) && unclaimed == old(unclaimed) + c.maxSize
      ensures exists i :: 0 <= i < |old(heaps)| && old(heaps)[i] == c && heaps == old(heaps)[..i] + old(heaps)[i + 1..]
      ensures old(nextSteal) != null && old(nextSteal) != c ==> nextSteal == old(nextSteal)
      ensures c.Valid(depot) && c.size == 0 && forall l | l in c.lists :: l.list == []
      ensures Consistent() && |depot.out| == old(|depot.out|) && forall d | 0 <= d < |depot.out| :: App(d) == old(App(d))
    {
      hide SumOf, RowsOk, SameAway, Total, Shared, Application, Consistent, ListsOf;
      Empty(c);
      assert MaxSizes(heaps) == old(MaxSizes(heaps));
      Forget(c);
    }

    /** Unlinks an emptied cache. */
    method Forget(c: ThreadCache)
      requires Valid() && Consistent() && c in heaps && forall l | l in c.lists :: l.list == []
      modifies this
      ensures Valid() && c !in heaps && overall == old(overall) && unclaimed == old(unclaimed) + c.maxSize
      ensures exists i :: 0 <= i < |old(heaps)| && old(heaps)[i] == c && heaps == old(heaps)[..i] + old(heaps)[i + 1..]
      ensures old(nextSteal) != null && old(nextSteal) != c ==> nextSteal == old(nextSteal)
      ensures Consistent() && |depot.out| == old(|depot.out|) && forall d | 0 <= d < |depot.out| :: App(d) == old(App(d))
    {
      hide SumOf, RowsOk, SameAway, Total, Shared, Application, Consistent, ListsOf;
      ghost var all, heaps0 := AllRows(), heaps;
      WereNow();
      KnownShared();
      SharedWidth(g, all, depot.out);
      Unlink(c);
      forall j | 0 <= j < |heaps0| ensures RowsAt(heaps0, j) == all[j] && heaps0[j].size == Total(all[j]) {
        assert all[j] == old(RowsAt(heaps0, j)) == old(heaps0[j].Rows()) == heaps0[j].Rows();
      }
      ghost var k :| 0 <= k < |heaps0| && heaps0[k] == c && heaps == heaps0[..k] + heaps0[k + 1..];
      assert all[k] == c.Rows();
      LeaveConsistent(heaps0, k, all);
    }

    lemma KnownShared()
      requires Consistent()
      ensures g.Valid() && Shared(g, AllRows(), depot.out)
    {
      hide Shared;
    }

    /** Empties a cache. */
    method Empty(c: ThreadCache)
      requires Consistent() && c in heaps
      modifies c`size, c.lists, depot
      ensures Consistent() && |depot.out| == old(|depot.out|) && forall d | 0 <= d < |depot.out| :: App(d) == old(App(d))
      ensures c.Valid(depot) && c.size == 0 && forall l | l in c.lists :: l.list == []
    {
      hide RowsOk, SameAway, Total, Shared, Application;
      ghost var i := OneCache(c);
      ghost var all, out := AllRows(), depot.out;
      c.Cleanup(depot);
      forall j | 0 <= j < |heaps| && j != i ensures RowsAt(heaps, j) == all[j] && heaps[j].size == Total(all[j]) {
        NotShared(i, j);
        assert all[j] == old(RowsAt(heaps, j)) == old(heaps[j].Rows());
        assert forall d | 0 <= d < |heaps[j].lists| :: heaps[j].lists[d] in heaps[j].lists;
        assert heaps[j].Rows() == old(heaps[j].Rows());
      }
      SharedSame(g, all, out, i, c.Rows(), depot.out);
      StillConsistent(i, all);
    }

    method Unlink(c: ThreadCache)
      requires Valid() && c in heaps
      modifies this
      ensures Valid() && c !in heaps && overall == old(overall) && unclaimed == old(unclaimed) + c.maxSize
      ensures exists i :: 0 <= i < |old(heaps)| && old(heaps)[i] == c && heaps == old(heaps)[..i] + old(heaps)[i + 1..]
      ensures old(nextSteal) != null && old(nextSteal) != c ==> nextSteal == old(nextSteal)
    {
      hide SumOf;
      var i := Find(c);
      var after := Next(c);
      Dropped(i);
      heaps := heaps[..i] + heaps[i + 1..];
      if nextSteal == c {
        nextSteal := after;
      }
      if nextSteal == null && heaps != [] {
        nextSteal := heaps[0];
      }
      unclaimed := unclaimed + c.maxSize;
    }

    lemma Dropped(i: int)
      requires 0 <= i < |heaps|
      ensures SumOf(MaxSizes(heaps[..i] + heaps[i + 1..])) == Claimed() - heaps[i].maxSize
    {
      SumOfWithout(MaxSizes(heaps), i);
      assert MaxSizes(heaps[..i] + heaps[i + 1..]) == MaxSizes(heaps)[..i] + MaxSizes(heaps)[i + 1..];
    }

    /** The share of each of n caches, within limits. */
    function Share(n: nat): (s: int)
      reads this`overall
      ensures MIN_THREAD_CACHE <= s <= MAX_THREAD_CACHE
      ensures MIN_THREAD_CACHE < s && n > 0 ==> n * s <= overall
    {
      var space := overall / (if n > 0 then n else 1);
      if space < MIN_THREAD_CACHE then MIN_THREAD_CACHE else if space > MAX_THREAD_CACHE then MAX_THREAD_CACHE else space
    }

    /** Divides the whole room by the number of caches and shrinks the caches in
        proportion, if the share of each gets smaller. */
    method RecomputePerThreadCacheSize()
      requires Listed() && overall >= MIN_THREAD_CACHE
      modifies this`unclaimed, this`perThread, heaps`maxSize
      ensures Valid() && perThread == Share(|heaps|)
      ensures forall h | h in heaps :: h.maxSize == Shrunk(old(h.maxSize), perThread, old(perThread))
    {
      hide SumOf, Shrunk, Ratio;
      var space := Share(|heaps|);
      var ratio := Ratio(space, perThread);
      var claimed := 0;
      NoneYet();
      for i := 0 to |heaps|
        invariant claimed == SumOf(MaxSizes(heaps[..i])) && Listed() && perThread == old(perThread)
        invariant forall j | 0 <= j < i :: heaps[j].maxSize == Shrunk(old(heaps[j].maxSize), space, perThread)
        invariant forall j | i <= j < |heaps| :: heaps[j].maxSize == old(heaps[j].maxSize)
      {
        ghost var sizes := MaxSizes(heaps[..i]);
        Shrink(heaps[i], ratio, space, perThread);
        assert MaxSizes(heaps[..i]) == sizes;
        claimed := claimed + heaps[i].maxSize;
        OneMore(i);
      }
      assert heaps[..|heaps|] == heaps;
      unclaimed := overall - claimed;
      perThread := space;
    }

    method Shrink(h: ThreadCache, ratio: real, ghost share: int, ghost before: int)
      requires ratio == Ratio(share, before)
      modifies h`maxSize
      ensures h.maxSize == Shrunk(old(h.maxSize), share, before)
    {
      if ratio < 1.0 {
        h.maxSize := (h.maxSize as real * ratio).Floor;
      }
    }

    lemma NoneYet()
      ensures SumOf(MaxSizes(heaps[..0])) == 0
    {
    }

    lemma OneMore(i: int)
      requires 0 <= i < |heaps|
      ensures SumOf(MaxSizes(heaps[..i + 1])) == SumOf(MaxSizes(heaps[..i])) + heaps[i].maxSize
    {
      SumOfWithout(MaxSizes(heaps[..i + 1]), i);
      assert MaxSizes(heaps[..i + 1])[..i] + MaxSizes(heaps[..i + 1])[i + 1..] == MaxSizes(heaps[..i]);
    }

    /** Sets the whole room, within limits, and divides it anew. */
    method SetOverallThreadCacheSize(size: nat)
      requires Valid()
      modifies this`overall, this`unclaimed, this`perThread, heaps`maxSize
      ensures Valid() && perThread == Share(|heaps|)
      ensures forall h | h in heaps :: h.maxSize == Shrunk(old(h.maxSize), perThread, old(perThread))
      ensures overall == if size < MIN_THREAD_CACHE then MIN_THREAD_CACHE else if size > 0x4000_0000 then 0x4000_0000 else size
    {
      hide Shrunk, SumOf;
      overall := if size < MIN_THREAD_CACHE then MIN_THREAD_CACHE else size;
      if overall > 0x4000_0000 {
        overall := 0x4000_0000;
      }
      RecomputePerThreadCacheSize();
    }

    /** Scavenges a cache and then tries to give it more room. */
    method Scavenge(c: ThreadCache)
      requires Valid() && Consistent() && c in heaps
      modifies this`unclaimed, this`nextSteal, heaps`maxSize, c`size, c.lists, depot
      ensures Valid() && c.maxSize in {old(c.maxSize), old(c.maxSize) + STEAL_AMOUNT}
      ensures c.g == g && |g.batch| == |c.lists|
      ensures forall i | 0 <= i < |c.lists| :: IsScavenged(c.lists[i].State(), old(c.lists[i].State()), g.batch[i])
      ensures Consistent() && |depot.out| == old(|depot.out|) && forall d | 0 <= d < |depot.out| :: App(d) == old(App(d))
    {
      hide SumOf, RowsOk, SameAway, Total, Shared, Application, IsScavenged;
      ghost var i := OneCache(c);
      ghost var all, out := AllRows(), depot.out;
      ScavengeOne(c);
      forall j | 0 <= j < |heaps| && j != i ensures RowsAt(heaps, j) == all[j] && heaps[j].size == Total(all[j]) {
        NotShared(i, j);
        assert all[j] == old(RowsAt(heaps, j)) == old(heaps[j].Rows());
        assert forall d | 0 <= d < |heaps[j].lists| :: heaps[j].lists[d] in heaps[j].lists;
        assert heaps[j].Rows() == old(heaps[j].Rows());
      }
      SharedSame(g, all, out, i, c.Rows(), depot.out);
      StillConsistent(i, all);
    }

    lemma RowKnownWidth(c: ThreadCache)
      requires c.Valid(depot) && c.g == g
      ensures |g.batch| == |c.lists|
    {
    }

    /** The part of Scavenge that concerns the cache alone, and its room. */
    method ScavengeOne(c: ThreadCache)
      requires Valid() && c in heaps && c.Valid(depot) && c.g == g
      modifies this`unclaimed, this`nextSteal, heaps`maxSize, c`size, c.lists, depot
      ensures Valid() && c.Valid(depot) && SameAway(old(c.Rows()), old(depot.out), c.Rows(), depot.out)
      ensures c.maxSize in {old(c.maxSize), old(c.maxSize) + STEAL_AMOUNT}
      ensures |g.batch| == |c.lists|
      ensures forall i | 0 <= i < |c.lists| :: IsScavenged(c.lists[i].State(), old(c.lists[i].State()), g.batch[i])
    {
      hide SumOf, SameAway, Total, IsScavenged, RowsOk;
      RowKnownWidth(c);
      c.ScavengeLists(depot);
      assert MaxSizes(heaps) == old(MaxSizes(heaps));
      IncreaseCacheLimitLocked(c);
    }

    /** Takes back an object that the application has, scavenging if the cache gets too large. */
    method Deallocate(c: ThreadCache, ptr: Obj, cl: ClassId)
      requires Valid() && Consistent() && c in heaps && cl < |c.lists| == |depot.out| == |g.sizes| && ptr in App(cl)
      modifies this`unclaimed, this`nextSteal, heaps`maxSize, c`size, c.lists, depot
      ensures Valid() && Consistent() && |depot.out| == old(|depot.out|)
      ensures forall d | 0 <= d < |depot.out| :: App(d) == old(App(d)) - (if d == cl then {ptr} else {})
      ensures old(c.lists[cl].length < c.lists[cl].maxLength && c.size + g.sizes[cl] <= c.maxSize) ==>
        c.lists[cl].list == [ptr] + old(c.lists[cl].list) && depot.out == old(depot.out)
    {
      hide SumOf, RowsOk, SameAway, Total, Shared, Gave;
      ghost var i := OneCache(c);
      ghost var all, out := AllRows(), depot.out;
      ApplicationOf(all, out, i, all[i], out, cl, ptr);
      AwayMeans(all[i], out, cl, ptr);
      assert all[i][cl] == c.lists[cl].State();
      hide Application;
      DeallocateTo(c, ptr, cl);
      forall j | 0 <= j < |heaps| && j != i ensures RowsAt(heaps, j) == all[j] && heaps[j].size == Total(all[j]) {
        NotShared(i, j);
        assert all[j] == old(RowsAt(heaps, j)) == old(heaps[j].Rows());
        assert forall d | 0 <= d < |heaps[j].lists| :: heaps[j].lists[d] in heaps[j].lists;
        assert heaps[j].Rows() == old(heaps[j].Rows());
      }
      SharedGave(g, all, out, i, c.Rows(), depot.out, cl, ptr);
      StillConsistent(i, all);
    }

    /** The part of Deallocate that concerns the cache alone, and its room. */
    method DeallocateTo(c: ThreadCache, ptr: Obj, cl: ClassId)
      requires Valid() && c in heaps && c.Valid(depot) && c.g == g && cl < |c.lists| == |depot.out| == |g.sizes|
      requires ptr in depot.out[cl] && ptr !in c.lists[cl].list
      modifies this`unclaimed, this`nextSteal, heaps`maxSize, c`size, c.lists, depot
      ensures Valid() && c.Valid(depot)
      ensures Gave(old(c.Rows()), old(depot.out), c.Rows(), depot.out, cl, ptr)
      ensures old(c.lists[cl].length < c.lists[cl].maxLength && c.size + g.sizes[cl] <= c.maxSize) ==>
        c.lists[cl].list == [ptr] + old(c.lists[cl].list) && depot.out == old(depot.out)
    {
      hide SumOf, RowsOk, SameAway, Total, Gave;
      ghost var rows, out := c.Rows(), depot.out;
      var tooLarge := c.PushFreed(depot, ptr, cl);
      assert MaxSizes(heaps) == old(MaxSizes(heaps));
      if tooLarge {
        ghost var rows1, out1 := c.Rows(), depot.out;
        ScavengeOne(c);
        GaveThen(rows, out, rows1, out1, c.Rows(), depot.out, cl, ptr);
      }
    }
  }
}
