/** The table from sizes to size classes, for any page size, minimal alignment and
    setting of the number of objects moved at a time. */
module SizeMap {
  import opened Arith

  const MAX_SIZE: int := 0x4_0000
  const MAX_SMALL_SIZE: int := 1024
  const ALIGNMENT: int := 8
  const CLASS_SIZES_MAX: int := 96
  const CLASS_ARRAY_SIZE: int := (MAX_SIZE + 127 + 120 * 128) / 128 + 1
  const SIZE_T: int := 0x1_0000_0000_0000_0000

  /** A build's page size and minimal alignment, and the transfer setting at run time. */
  datatype Config = Config(pageShift: nat, minAlign: int, transfer: int) {
    ghost predicate Valid() { 7 <= pageShift <= 18 && (minAlign == 8 || minAlign == 16) && -0x8000_0000 <= transfer < 0x8000_0000 }
    function PageSize(): int { Pow2(pageShift) }
  }

  // ---- Alignment ----

  ghost function Lg(n: int): nat { if n < 2 then 0 else 1 + Lg(n / 2) }

  lemma {:induction false} LgBand(n: int)
    requires n >= 1
    ensures Pow2(Lg(n)) <= n < 2 * Pow2(Lg(n))
  {
    if n >= 2 {
      LgBand(n / 2);
    }
  }

  /** The band [2^k, 2^(k+1)) a number lies in is unique. */
  lemma LgUnique(n: int, k: nat)
    requires Pow2(k) <= n < 2 * Pow2(k)
    ensures Lg(n) == k
  {
    LgBand(n);
    Pow2Order(Lg(n), k);
  }

  /** Shifts by 16, 8, 4, 2 and 1 where something is left. */
  method LgFloor(size: int) returns (log: int)
    requires 1 <= size < 0x1_0000_0000
    ensures log == Lg(size)
  {
    hide Pow2;
    SmallPowers();
    log := 0;
    var n := size;
    var i := 4;
    while i >= 0
      invariant -1 <= i <= 4 && n >= 1 && log >= 0
      invariant Pow2(log) >= 1 && n == size / Pow2(log)
      invariant n < Pow2(Pow2(i + 1))
      decreases i
    {
      var shift := Pow2(i);
      ShiftStep(size, log, n, i);
      var x := n / Pow2(shift);
      if x != 0 {
        n := x;
        log := log + shift;
        Pow2Positive(log);
      }
      i := i - 1;
    }
    assert n == 1;
    BlockEnd(size, Pow2(log));
    LgUnique(size, log);
  }

  /** One shift: what is left of the size, and how small it is. */
  lemma ShiftStep(size: int, log: nat, n: int, i: nat)
    requires size >= 0 && n >= 0 && Pow2(log) >= 1 && n == size / Pow2(log) && n < Pow2(Pow2(i + 1))
    ensures Pow2(Pow2(i)) >= 1 && Pow2(log + Pow2(i)) >= 1
    ensures var x := n / Pow2(Pow2(i));
            0 <= x < Pow2(Pow2(i)) && x == size / Pow2(log + Pow2(i)) && (x == 0 ==> n < Pow2(Pow2(i)))
  {
    hide Pow2;
    HalfShifts(i);
    var shift := Pow2(i);
    var d := Pow2(shift);
    Pow2Sum(log, shift);
    DivDiv(size, Pow2(log), d);
    BlockBelow(n, d, d);
    BlockBelow(n, d, 1);
    BlockEnd(n, d);
  }

  lemma SmallPowers()
    ensures Pow2(0) == 1 && Pow2(Pow2(0)) == 2 && Pow2(Pow2(5)) == 0x1_0000_0000
  {
    Pow2Sum(16, 16);
    Pow2Sum(8, 8);
    assert Pow2(5) == 32 && Pow2(8) == 256;
  }

  lemma HalfShifts(i: nat)
    ensures Pow2(Pow2(i)) >= 1 && Pow2(Pow2(i + 1)) == Pow2(Pow2(i)) * Pow2(Pow2(i))
  {
    Pow2Positive(Pow2(i));
    Pow2Sum(Pow2(i), Pow2(i));
  }

  ghost function Alignment(g: Config, size: int): int {
    var a := if size > MAX_SIZE then g.PageSize()
             else if size >= 128 then Pow2(Lg(size)) / 8
             else if size >= g.minAlign then g.minAlign
             else ALIGNMENT;
    if a > g.PageSize() then g.PageSize() else a
  }

  method AlignmentForSize(g: Config, size: int) returns (alignment: int)
    requires g.Valid() && size >= 1
    ensures alignment == Alignment(g, size)
    ensures size < g.minAlign || alignment >= g.minAlign
    ensures exists e: nat :: alignment == Pow2(e)
  {
    hide Pow2;
    PagesLarge(g);
    alignment := ALIGNMENT;
    ghost var e := 3;
    assert alignment == Pow2(3) && Pow2(4) == 16 by { EightSixteen(); }
    if size > MAX_SIZE {
      alignment := g.PageSize();
      e := g.pageShift;
    } else if size >= 128 {
      BandAlignment(size);
      var log := LgFloor(size);
      alignment := Pow2(log) / 8;
      e := log - 3;
    } else if size >= g.minAlign {
      alignment := g.minAlign;
      e := if g.minAlign == 8 then 3 else 4;
    }
    if alignment > g.PageSize() {
      alignment := g.PageSize();
      e := g.pageShift;
    }
    assert alignment == Pow2(e);
  }

  lemma EightSixteen()
    ensures Pow2(3) == 8 && Pow2(4) == 16 && Pow2(7) == 128
  {
  }

  lemma PagesLarge(g: Config)
    requires g.Valid()
    ensures g.PageSize() >= 128
  {
    EightSixteen();
    Pow2Monotone(7, g.pageShift);
  }

  /** From 128 bytes on, an eighth of the band's lower end is a power of two of at least 16. */
  lemma BandAlignment(size: int)
    requires size >= 128
    ensures Lg(size) >= 7 && Pow2(Lg(size)) / 8 == Pow2(Lg(size) - 3) >= 16
    ensures Pow2(Lg(size)) == 8 * Pow2(Lg(size) - 3)
  {
    EightSixteen();
    LgBand(size);
    if Lg(size) < 7 {
      Pow2Order(Lg(size), 7);
    } else {
      Pow2Sum(3, Lg(size) - 3);
      Pow2Monotone(4, Lg(size) - 3);
    }
  }

  /** The sizes Init looks at. */
  ghost predicate Candidate(g: Config, s: int) {
    ALIGNMENT <= s <= MAX_SIZE && Alignment(g, s) > 0 && s % Alignment(g, s) == 0
  }

  /** From one candidate, adding its alignment leads to the next; the last is the largest
      size there is. */
  lemma NextCandidate(g: Config, s: int)
    requires g.Valid() && Candidate(g, s)
    ensures var n := s + Alignment(g, s);
            && (n <= MAX_SIZE ==> Candidate(g, n)) && (n > MAX_SIZE ==> s == MAX_SIZE)
            && forall q | s < q < n && q <= MAX_SIZE :: !Candidate(g, q)
  {
    hide Pow2;
    PagesLarge(g);
    EightSixteen();
    var a := Alignment(g, s);
    if s >= 128 {
      BandStep(g, s);
    } else {
      SmallAlignment(g);
      AlignedStep(s, a);
      assert s + a <= 128;
    }
  }

  lemma SmallAlignment(g: Config)
    requires g.Valid()
    ensures Alignment(g, 128) == 16
  {
    hide Pow2;
    PagesLarge(g);
    EightSixteen();
    LgUnique(128, 7);
  }

  lemma {:induction false} Pow2Divides(e: nat, f: nat)
    requires e <= f
    ensures Pow2(e) >= 1 && Pow2(f) % Pow2(e) == 0
  {
    Pow2Sum(e, f - e);
    Pow2Positive(e);
    ModUnique(Pow2(f), Pow2(e), Pow2(f - e), 0);
  }

  /** The alignments of a band and of the next both divide where the bands meet. */
  lemma BandDivides(g: Config, k: nat)
    requires g.Valid() && k >= 7
    ensures Pow2(k + 1) == 2 * Pow2(k) && Pow2(k + 1) / 8 == Pow2(k - 2)
    ensures var a := if Pow2(k - 3) > g.PageSize() then g.PageSize() else Pow2(k - 3);
            a > 0 && (2 * Pow2(k)) % a == 0
    ensures var a := if Pow2(k - 2) > g.PageSize() then g.PageSize() else Pow2(k - 2);
            a > 0 && (2 * Pow2(k)) % a == 0
  {
    hide Pow2;
    EightSixteen();
    Pow2Doubles(k);
    Pow2Sum(3, k - 2);
    Pow2Divides(k - 3, k + 1);
    Pow2Divides(k - 2, k + 1);
    Pow2Order(g.pageShift, k - 3);
    Pow2Order(g.pageShift, k - 2);
    Pow2Positive(g.pageShift);
    if g.pageShift <= k + 1 {
      Pow2Divides(g.pageShift, k + 1);
    }
  }

  lemma Pow2Doubles(k: nat)
    ensures Pow2(k + 1) == 2 * Pow2(k)
  {
  }

  /** The largest size is a power of two, so a band lies below it or starts at it. */
  lemma LastBand(k: nat)
    ensures Pow2(k) < MAX_SIZE ==> 2 * Pow2(k) <= MAX_SIZE
  {
    Pow2Sum(9, 9);
    assert Pow2(9) == 512;
    Pow2Order(k, 18);
  }

  /** Between two multiples there is room for a whole step. */
  lemma Within(s: int, a: int, b: int)
    requires a > 0 && 0 <= s < b && s % a == 0 && b % a == 0
    ensures s + a <= b
  {
    assert s == a * (s / a) && b == a * (b / a);
    assert b - s == a * (b / a - s / a);
    MulSign(a, b / a - s / a);
    MulBig(a, b / a - s / a);
  }

  lemma MulSign(a: int, x: int)
    requires a > 0 && a * x > 0
    ensures x > 0
  {
  }

  /** One step within a band or to its end. */
  lemma BandStep(g: Config, s: int)
    requires g.Valid() && Candidate(g, s) && s >= 128
    ensures var n := s + Alignment(g, s);
            && (n <= MAX_SIZE ==> Candidate(g, n)) && (n > MAX_SIZE ==> s == MAX_SIZE)
            && forall q | s < q < n && q <= MAX_SIZE :: !Candidate(g, q)
  {
    hide Pow2;
    var k, a := Lg(s), Alignment(g, s);
    var n := s + a;
    LgBand(s);
    BandAlignment(s);
    BandDivides(g, k);
    AlignedStep(s, a);
    Within(s, a, 2 * Pow2(k));
    LastBand(k);
    forall q | s < q < n && q <= MAX_SIZE ensures !Candidate(g, q) {
      LgUnique(q, k);
    }
    if n < 2 * Pow2(k) {
      LgUnique(n, k);
    } else {
      LgUnique(n, k + 1);
    }
  }

  // ---- Span sizes ----

  /** Integer division as C does it. */
  function CDiv(a: int, b: int): int
    requires b > 0
  {
    if a >= 0 then a / b else -(-a / b)
  }

  /** A signed number converted to size_t. */
  function AsSizeT(n: int): int { n % SIZE_T }

  /** Approximately 64 KB worth of objects, at least two, at most the transfer setting. */
  function NumMoveSize(g: Config, size: int): (num: int)
    requires size >= 0
    ensures size > 0 ==> num <= g.transfer && num <= 65536
    ensures size >= ALIGNMENT ==> num <= 8192 && (g.transfer >= 2 ==> num >= 2)
  {
    if size == 0 then 0
    else
      var num := 65536 / size;
      var atLeast := if num < 2 then 2 else num;
      if atLeast > g.transfer then g.transfer else atLeast
  }

  /** A size's number is positive exactly if the setting is. */
  lemma MovesSome(g: Config, size: int)
    requires size > 0
    ensures NumMoveSize(g, size) >= 1 <==> g.transfer >= 1
  {
  }

  /** Unless the setting is smaller, 64K are moved at a time: as many objects as fit into
      them, but at least two. */
  lemma MovesAtOnce(g: Config, size: int)
    requires size > 0
    ensures NumMoveSize(g, size) > 2 ==> NumMoveSize(g, size) * size <= 0x1_0000
    ensures NumMoveSize(g, size) < g.transfer ==> NumMoveSize(g, size) >= 2 && (NumMoveSize(g, size) + 1) * size > 0x1_0000
  {
    BlockEnd(0x1_0000, size);
    var q, n := 0x1_0000 / size, NumMoveSize(g, size);
    if n > 2 {
      MulNonNeg(q - n, size);
      assert n * size + (q - n) * size == q * size;
    }
    if n < g.transfer && q < 2 {
      assert n == 2 && q + 1 <= 2;
      MulNonNeg(2 - q, size);
      assert (n + 1) * size == (q + 1) * size + (2 - q) * size;
    }
  }

  function BlocksToMove(g: Config, size: int): int
    requires size >= 0
  {
    CDiv(NumMoveSize(g, size), 4)
  }

  function Bytes(g: Config, pages: int): int { pages * g.PageSize() }

  /** A span of that many bytes wastes at most an eighth and holds enough objects. */
  predicate SpanOk(g: Config, size: int, psize: int)
    requires size > 0
  {
    psize % size <= psize / 8 && psize / size >= BlocksToMove(g, size)
  }

  /** n is the least number of pages that will do. */
  ghost predicate LeastSpan(g: Config, size: int, n: int)
    requires size > 0
  {
    n >= 1 && SpanOk(g, size, Bytes(g, n)) && forall m | 1 <= m < n :: !SpanOk(g, size, Bytes(g, m))
  }

  /** The transfer settings for which the number of objects wanted is not negative. */
  predicate Moves(g: Config) { g.transfer > -4 }

  /** For other settings that number, as a size_t, is more than any span can hold, so the
      loop that adds pages never ends; for these it ends at some span. */
  lemma EnoughObjects(g: Config, size: int)
    requires g.Valid() && ALIGNMENT <= size <= MAX_SIZE
    ensures Moves(g) <==> BlocksToMove(g, size) >= 0
    ensures Moves(g) <==> AsSizeT(BlocksToMove(g, size)) == BlocksToMove(g, size)
    ensures Moves(g) <==> exists psize: nat :: psize < SIZE_T && psize / size >= AsSizeT(BlocksToMove(g, size))
  {
    var b := BlocksToMove(g, size);
    if Moves(g) {
      assert AsSizeT(b) == b;
      EnoughBytes(size * b, size, b);
      assert 0 <= size * b <= MAX_SIZE * 8192 by {
        MulNonNeg(size, b);
        MulNonNeg(MAX_SIZE - size, b);
      }
      assert size * b < SIZE_T;
      var psize: nat := size * b;
      assert psize / size >= AsSizeT(b);
    } else {
      assert AsSizeT(b) == SIZE_T + b;
      forall psize: nat | psize < SIZE_T ensures psize / size < AsSizeT(b) {
        FewObjects(psize, size);
      }
    }
  }

  lemma FewObjects(psize: nat, size: int)
    requires size >= ALIGNMENT
    ensures psize / size <= psize / 8
  {
    BlockEnd(psize, size);
    var q := psize / size;
    assert psize == size * q + psize % size;
    MulNonNeg(size - 8, q);
    assert size * q == (size - 8) * q + 8 * q;
  }

  lemma EnoughBytes(psize: int, size: int, b: int)
    requires size > 0 && b >= 0 && psize >= size * b
    ensures psize / size >= b
  {
    MulNonNeg(size, b);
    BlockBelow(psize, size, b);
  }

  /** Beyond this many bytes every span is good enough. */
  ghost function Plenty(g: Config, size: int): int
    requires size > 0
  {
    if size * BlocksToMove(g, size) > 8 * size then size * BlocksToMove(g, size) else 8 * size
  }

  lemma PlentyOk(g: Config, size: int, psize: int)
    requires size > 0 && BlocksToMove(g, size) >= 0
    ensures psize >= Plenty(g, size) ==> psize % size <= psize / 8 && psize / size >= BlocksToMove(g, size)
  {
    if psize >= Plenty(g, size) {
      EnoughBytes(psize, size, BlocksToMove(g, size));
    }
  }

  lemma NextPage(g: Config, n: int)
    requires g.Valid()
    ensures g.PageSize() >= 1 && Bytes(g, n + 1) == Bytes(g, n) + g.PageSize() && Bytes(g, n) / g.PageSize() == n
  {
    Pow2Positive(g.pageShift);
    DivUnique(Bytes(g, n), g.PageSize(), n, 0);
  }

  /** Adds pages until a span for this size wastes little and holds enough objects. */
  method PagesFor(g: Config, size: int) returns (pages: int)
    requires g.Valid() && Moves(g) && ALIGNMENT <= size <= MAX_SIZE
    ensures LeastSpan(g, size, pages)
  {
    hide Pow2, BlocksToMove, Plenty, Bytes, SpanOk, AsSizeT;
    EnoughObjects(g, size);
    NextPage(g, 0);
    SpanTests(g, size);
    var page := g.PageSize();
    var blocks := BlocksToMove(g, size);
    var psize := 0;
    ghost var n := 0;
    while true
      invariant n >= 0 && psize == Bytes(g, n) && forall m | 1 <= m <= n :: !SpanOk(g, size, Bytes(g, m))
      decreases Plenty(g, size) - psize
    {
      NextPage(g, n);
      psize := psize + page;
      n := n + 1;
      while psize % size > psize / 8
        invariant n >= 1 && psize == Bytes(g, n) && forall m | 1 <= m < n :: !SpanOk(g, size, Bytes(g, m))
        decreases Plenty(g, size) - psize
      {
        PlentyOk(g, size, psize);
        NextPage(g, n);
        psize := psize + page;
        n := n + 1;
      }
      if !(psize / size < AsSizeT(blocks)) {
        break;
      }
      PlentyOk(g, size, psize);
    }
    NextPage(g, n);
    pages := psize / page;
  }

  lemma SpanTests(g: Config, size: int)
    requires size > 0 && g.Valid()
    ensures Bytes(g, 0) == 0
    ensures forall psize :: SpanOk(g, size, psize) <==> psize % size <= psize / 8 && psize / size >= BlocksToMove(g, size)
  {
  }

  // ---- The classes ----

  /** The classes made so far: sizes[c] is the largest size of class c, from class 1 on. */
  ghost predicate Classes(g: Config, sizes: seq<int>, pages: seq<int>) {
    && |sizes| == |pages| >= 1 && sizes[0] == 0
    && (forall c | 1 <= c < |sizes| :: Candidate(g, sizes[c]) && LeastSpan(g, sizes[c], pages[c]))
    && (forall c, d | 0 <= c < d < |sizes| :: sizes[c] < sizes[d])
  }

  /** The number of objects of a size that fit n pages. */
  function Objects(g: Config, n: int, size: int): int
    requires size > 0
  {
    Bytes(g, n) / size
  }

  /** Class c is the first that fits size v, and gives v the span v would get by itself,
      holding the same number of objects. */
  ghost predicate ServedBy(g: Config, sizes: seq<int>, pages: seq<int>, v: int, c: int)
    requires |sizes| == |pages| && v > 0
  {
    && 1 <= c < |sizes| && sizes[c - 1] < v <= sizes[c]
    && LeastSpan(g, v, pages[c]) && Objects(g, pages[c], v) == Objects(g, pages[c], sizes[c])
  }

  ghost predicate Served(g: Config, sizes: seq<int>, pages: seq<int>, v: int)
    requires |sizes| == |pages| && v > 0
  {
    exists c :: ServedBy(g, sizes, pages, v, c)
  }

  /** All candidates below `next` are served, the last class ends with the last of them. */
  ghost predicate ClassesTo(g: Config, sizes: seq<int>, pages: seq<int>, next: int) {
    && Classes(g, sizes, pages)
    && (forall v | Candidate(g, v) && v < next :: Served(g, sizes, pages, v))
    && (if |sizes| == 1 then next == ALIGNMENT else next == sizes[|sizes| - 1] + Alignment(g, sizes[|sizes| - 1]))
  }

  lemma ClassesStart(g: Config)
    ensures ClassesTo(g, [0], [0], ALIGNMENT)
  {
  }

  lemma ClassesMerge(g: Config, sizes: seq<int>, pages: seq<int>, size: int)
    requires g.Valid() && ClassesTo(g, sizes, pages, size) && Candidate(g, size) && |sizes| > 1
    requires LeastSpan(g, size, pages[|sizes| - 1])
    requires sizes[|sizes| - 1] > 0 && Objects(g, pages[|sizes| - 1], size) == Objects(g, pages[|sizes| - 1], sizes[|sizes| - 1])
    ensures ClassesTo(g, sizes[|sizes| - 1 := size], pages, size + Alignment(g, size))
  {
    hide LeastSpan, Candidate, Alignment, Objects, Config.Valid;
    hide Classes, Served;
    var last := |sizes| - 1;
    LastPositive(g, sizes, pages, size);
    CandidateStep(g, sizes[last]);
    CandidateStep(g, size);
    MergeClasses(g, sizes, pages, size);
    forall v | Candidate(g, v) && v < size + Alignment(g, size) ensures Served(g, sizes[last := size], pages, v) {
      MergeServed(g, sizes, pages, size, v);
    }
  }

  lemma MergeClasses(g: Config, sizes: seq<int>, pages: seq<int>, size: int)
    requires Classes(g, sizes, pages) && |sizes| > 1 && size > sizes[|sizes| - 1]
    requires Candidate(g, size) && LeastSpan(g, size, pages[|sizes| - 1])
    ensures Classes(g, sizes[|sizes| - 1 := size], pages)
  {
    hide LeastSpan, Candidate;
  }

  lemma MergeServed(g: Config, sizes: seq<int>, pages: seq<int>, size: int, v: int)
    requires Classes(g, sizes, pages) && |sizes| > 1 && 0 < sizes[|sizes| - 1] < size && LeastSpan(g, size, pages[|sizes| - 1])
    requires Objects(g, pages[|sizes| - 1], size) == Objects(g, pages[|sizes| - 1], sizes[|sizes| - 1])
    requires 0 < v && (v == size || Served(g, sizes, pages, v))
    ensures Served(g, sizes[|sizes| - 1 := size], pages, v)
  {
    hide LeastSpan, Candidate, Objects;
    var last := |sizes| - 1;
    if v == size {
      assert ServedBy(g, sizes[last := size], pages, v, last);
    } else {
      var c :| ServedBy(g, sizes, pages, v, c);
      assert ServedBy(g, sizes[last := size], pages, v, c);
    }
  }

  lemma ClassesAdd(g: Config, sizes: seq<int>, pages: seq<int>, size: int, n: int)
    requires g.Valid() && ClassesTo(g, sizes, pages, size) && Candidate(g, size) && LeastSpan(g, size, n)
    ensures ClassesTo(g, sizes + [size], pages + [n], size + Alignment(g, size))
  {
    hide LeastSpan, Candidate, Alignment, Objects, Config.Valid, Classes, Served;
    CandidateStep(g, size);
    ClassesShape(g, sizes, pages);
    if |sizes| > 1 {
      LastPositive(g, sizes, pages, size);
      CandidateStep(g, sizes[|sizes| - 1]);
    }
    AddClasses(g, sizes, pages, size, n);
    forall v | Candidate(g, v) && v < size + Alignment(g, size) ensures Served(g, sizes + [size], pages + [n], v) {
      AddServed(g, sizes, pages, size, n, v);
    }
  }

  lemma ClassesShape(g: Config, sizes: seq<int>, pages: seq<int>)
    requires Classes(g, sizes, pages)
    ensures |sizes| == |pages| >= 1 && sizes[0] == 0
  {
  }

  lemma AddClasses(g: Config, sizes: seq<int>, pages: seq<int>, size: int, n: int)
    requires Classes(g, sizes, pages) && size > sizes[|sizes| - 1] && Candidate(g, size) && LeastSpan(g, size, n)
    ensures Classes(g, sizes + [size], pages + [n])
  {
    hide LeastSpan, Candidate;
  }

  lemma AddServed(g: Config, sizes: seq<int>, pages: seq<int>, size: int, n: int, v: int)
    requires Classes(g, sizes, pages) && sizes[|sizes| - 1] < size && LeastSpan(g, size, n)
    requires 0 < v && (v == size || Served(g, sizes, pages, v))
    ensures Served(g, sizes + [size], pages + [n], v)
  {
    hide LeastSpan, Candidate, Objects;
    if v == size {
      assert ServedBy(g, sizes + [size], pages + [n], v, |sizes|);
    } else {
      var c :| ServedBy(g, sizes, pages, v, c);
      assert ServedBy(g, sizes + [size], pages + [n], v, c);
    }
  }

  lemma CandidateStep(g: Config, s: int)
    requires g.Valid() && Candidate(g, s)
    ensures Alignment(g, s) > 0 && forall v | Candidate(g, v) :: ALIGNMENT <= v <= MAX_SIZE
    ensures forall q | s < q < s + Alignment(g, s) :: !Candidate(g, q)
    ensures s + Alignment(g, s) <= MAX_SIZE ==> Candidate(g, s + Alignment(g, s))
    ensures s + Alignment(g, s) > MAX_SIZE ==> s == MAX_SIZE
  {
    hide Alignment, Pow2;
    NextCandidate(g, s);
  }

  /** The first size is a candidate. */
  lemma FirstCandidate(g: Config)
    requires g.Valid()
    ensures Candidate(g, ALIGNMENT) && Alignment(g, ALIGNMENT) == ALIGNMENT
  {
    hide Pow2;
    PagesLarge(g);
  }

  /** Computes the classes: each candidate size joins the last class if that costs no
      objects per span, or else starts a new class. */
  method ComputeClasses(g: Config) returns (sizes: seq<int>, pages: seq<int>)
    requires g.Valid() && Moves(g)
    ensures Classes(g, sizes, pages) && |sizes| > 1 && sizes[|sizes| - 1] == MAX_SIZE
    ensures forall v | Candidate(g, v) :: Served(g, sizes, pages, v)
  {
    hide LeastSpan, Candidate, Alignment, Classes, Served, Objects, Moves, Config.Valid;
    sizes, pages := [0], [0];
    ClassesStart(g);
    FirstCandidate(g);
    var size := ALIGNMENT;
    while size <= MAX_SIZE
      invariant ClassesTo(g, sizes, pages, size) && size >= ALIGNMENT && |sizes| == |pages| >= 1
      invariant size <= MAX_SIZE ==> Candidate(g, size)
      invariant size > MAX_SIZE ==> |sizes| > 1 && sizes[|sizes| - 1] == MAX_SIZE
      decreases MAX_SIZE - size
    {
      var alignment := AlignmentForSize(g, size);
      CandidateStep(g, size);
      var n := PagesFor(g, size);
      var last := |sizes| - 1;
      if last >= 1 && n == pages[last] {
        LastPositive(g, sizes, pages, size);
        var objects, before := Objects(g, n, size), Objects(g, pages[last], sizes[last]);
        if objects == before {
          ClassesMerge(g, sizes, pages, size);
          sizes := sizes[last := size];
          size := size + alignment;
          continue;
        }
      }
      ClassesAdd(g, sizes, pages, size, n);
      sizes, pages := sizes + [size], pages + [n];
      size := size + alignment;
    }
    AllServed(g, sizes, pages, size);
  }

  lemma LastPositive(g: Config, sizes: seq<int>, pages: seq<int>, next: int)
    requires ClassesTo(g, sizes, pages, next) && |sizes| > 1
    ensures |sizes| == |pages| && sizes[|sizes| - 1] > 0 && Classes(g, sizes, pages) && Candidate(g, sizes[|sizes| - 1])
  {
    hide LeastSpan, Candidate;
    assert sizes[0] < sizes[|sizes| - 1];
  }

  lemma AllServed(g: Config, sizes: seq<int>, pages: seq<int>, next: int)
    requires ClassesTo(g, sizes, pages, next) && next > MAX_SIZE
    ensures Classes(g, sizes, pages) && forall v | Candidate(g, v) :: Served(g, sizes, pages, v)
  {
    hide LeastSpan, Alignment;
  }

  // ---- The class array ----

  /** Sizes up to 1024 are told apart in steps of 8, larger ones in steps of 128. */
  function ClassIndex(s: int): int {
    if s <= MAX_SMALL_SIZE then (s + 7) / 8 else (s + 127 + 120 * 128) / 128
  }

  ghost predicate OnGrid(s: int) { s >= 0 && s % 8 == 0 && (s > MAX_SMALL_SIZE ==> s % 128 == 0) }

  /** A size on the grid is the last of its index, so no index is shared by the sizes on
      both sides of it. */
  lemma GridBoundary(b: int, s: int)
    requires OnGrid(b) && s >= 0
    ensures s <= b <==> ClassIndex(s) <= ClassIndex(b)
  {
  }

  lemma IndexStep(s: int)
    requires 0 <= s <= MAX_SIZE
    ensures 0 <= ClassIndex(s) < CLASS_ARRAY_SIZE
    ensures s >= 8 ==> ClassIndex(s - 8) <= ClassIndex(s) <= ClassIndex(s - 8) + 1
  {
  }

  /** Class sizes are on the grid. */
  lemma CandidateOnGrid(g: Config, s: int)
    requires g.Valid() && Candidate(g, s)
    ensures OnGrid(s)
  {
    hide Pow2;
    if s >= 128 {
      LargeOnGrid(g, s, Alignment(g, s));
    } else {
      PagesLarge(g);
      EightSixteen();
    }
  }

  lemma LargeOnGrid(g: Config, s: int, a: int)
    requires g.Valid() && 128 <= s <= MAX_SIZE && a == Alignment(g, s) && a > 0 && s % a == 0
    ensures OnGrid(s)
  {
    hide Pow2, Alignment;
    var e := AlignmentPower(g, s);
    EightSixteen();
    Pow2Divides(4, e);
    Multiple(s, a, 16);
    if s > MAX_SMALL_SIZE {
      Pow2Divides(7, e);
      Multiple(s, a, 128);
    }
  }

  lemma AlignmentPower(g: Config, s: int) returns (e: nat)
    requires g.Valid() && 128 <= s <= MAX_SIZE
    ensures Alignment(g, s) == Pow2(e) && e >= 4 && (s > MAX_SMALL_SIZE ==> e >= 7)
  {
    hide Pow2;
    BandAlignment(s);
    LgBand(s);
    Thousand();
    EightSixteen();
    Pow2Order(Lg(s), 10);
    Pow2Order(4, Lg(s) - 3);
    e := if Pow2(Lg(s) - 3) > g.PageSize() then g.pageShift else Lg(s) - 3;
  }

  lemma Thousand()
    ensures Pow2(10) == 1024
  {
    assert Pow2(5) == 32;
    Pow2Sum(5, 5);
  }

  lemma Multiple(s: int, a: int, d: int)
    requires a > 0 && d > 0 && s % a == 0 && a % d == 0
    ensures s % d == 0
  {
    assert s == a * (s / a) && a == d * (a / d);
    assert s == d * ((a / d) * (s / a));
    ModUnique(s, d, (a / d) * (s / a), 0);
  }

  /** Every size that an index up to that of class `upto` stands for has its class there. */
  ghost predicate Indexed(sizes: seq<int>, table: seq<int>, upto: int)
    requires 0 <= upto < |sizes|
  {
    forall c, i | 1 <= c <= upto && 0 <= i < |table| && (c == 1 || ClassIndex(sizes[c - 1]) < i) && i <= ClassIndex(sizes[c]) :: table[i] == c
  }

  ghost predicate GridSizes(sizes: seq<int>) {
    && |sizes| > 1 && sizes[0] == 0 && sizes[|sizes| - 1] == MAX_SIZE
    && (forall c | 0 <= c < |sizes| :: OnGrid(sizes[c]))
    && (forall c, d | 0 <= c < d < |sizes| :: sizes[c] < sizes[d])
  }

  lemma ClassesOnGrid(g: Config, sizes: seq<int>, pages: seq<int>)
    requires g.Valid() && Classes(g, sizes, pages) && |sizes| > 1 && sizes[|sizes| - 1] == MAX_SIZE
    ensures GridSizes(sizes)
  {
    hide LeastSpan, Candidate;
    forall c | 1 <= c < |sizes| ensures OnGrid(sizes[c]) {
      CandidateOnGrid(g, sizes[c]);
    }
  }

  /** The class that a size belongs to: the first one that is large enough. */
  ghost predicate FirstFit(sizes: seq<int>, s: int, c: int) {
    1 <= c < |sizes| && s <= sizes[c] && (c > 1 ==> sizes[c - 1] < s)
  }

  /** A filled table gives every size its class. */
  lemma {:induction false} IndexedFits(sizes: seq<int>, table: seq<int>, s: int, c: int)
    requires GridSizes(sizes) && |table| == CLASS_ARRAY_SIZE && Indexed(sizes, table, |sizes| - 1)
    requires 1 <= c < |sizes| && 0 <= s <= sizes[c]
    ensures 0 <= ClassIndex(s) < |table| && FirstFit(sizes, s, table[ClassIndex(s)])
    decreases c
  {
    assert sizes[c] <= MAX_SIZE;
    IndexStep(s);
    GridBoundary(sizes[c], s);
    GridBoundary(sizes[c - 1], s);
    if c > 1 && s <= sizes[c - 1] {
      IndexedFits(sizes, table, s, c - 1);
    }
  }

  lemma GridFacts(sizes: seq<int>, c: int)
    requires GridSizes(sizes) && 1 <= c < |sizes|
    ensures 0 <= sizes[c - 1] < sizes[c] <= MAX_SIZE && sizes[c] % 8 == 0 && sizes[c - 1] % 8 == 0
    ensures 0 <= ClassIndex(sizes[c - 1]) < ClassIndex(sizes[c]) < CLASS_ARRAY_SIZE && ClassIndex(0) == 0
  {
    GridBoundary(sizes[c - 1], sizes[c]);
    IndexStep(sizes[c]);
    IndexStep(sizes[c - 1]);
    assert OnGrid(sizes[c]) && OnGrid(sizes[c - 1]);
  }

  /** The sizes of class c have indices above the previous class's, the first right above. */
  lemma FirstIndex(sizes: seq<int>, c: int, s: int)
    requires GridSizes(sizes) && 1 <= c < |sizes| && s >= 0 && (c > 1 ==> s > sizes[c - 1])
    ensures c > 1 ==> ClassIndex(s) > ClassIndex(sizes[c - 1])
    ensures c > 1 && s == sizes[c - 1] + 8 ==> ClassIndex(s) == ClassIndex(sizes[c - 1]) + 1
    ensures s == 0 ==> ClassIndex(s) == 0
  {
    GridBoundary(sizes[c - 1], s);
    GridFacts(sizes, c);
    if s == sizes[c - 1] + 8 && s <= MAX_SIZE {
      IndexStep(s);
    }
  }

  ghost predicate Eighth(s: int) { s % 8 == 0 }

  lemma FirstEighth(sizes: seq<int>, c: int)
    requires GridSizes(sizes) && 1 <= c < |sizes|
    ensures Eighth(0) && Eighth(sizes[c - 1] + 8) && sizes[c - 1] + 8 <= sizes[c]
  {
    GridFacts(sizes, c);
  }

  lemma NextEighth(sizes: seq<int>, c: int, s: int)
    requires GridSizes(sizes) && 1 <= c < |sizes| && Eighth(s) && s <= sizes[c]
    ensures Eighth(s + 8) && (s + 8 <= sizes[c] || s == sizes[c])
  {
    GridFacts(sizes, c);
  }

  lemma KeepIndexed(sizes: seq<int>, before: seq<int>, table: seq<int>, c: int, low: int)
    requires GridSizes(sizes) && 1 <= c < |sizes| && |before| == |table| == CLASS_ARRAY_SIZE && Indexed(sizes, before, c - 1)
    requires low == if c == 1 then 0 else ClassIndex(sizes[c - 1]) + 1
    requires forall i | 0 <= i < low && i < |table| :: table[i] == before[i]
    requires forall i | low <= i <= ClassIndex(sizes[c]) :: 0 <= i < |table| && table[i] == c
    ensures Indexed(sizes, table, c)
  {
    hide ClassIndex;
    forall d | 1 <= d < c ensures ClassIndex(sizes[d]) < low {
      GridBoundary(sizes[c - 1], sizes[d]);
    }
  }

  lemma OneClass(sizes: seq<int>, s: int, c: int)
    requires GridSizes(sizes) && FirstFit(sizes, s, c)
    ensures forall d | FirstFit(sizes, s, d) :: d == c
  {
    hide OnGrid;
  }

  /** If the size is a multiple of the alignment, so is the size of its class. */
  ghost predicate AlignedAt(sizes: seq<int>, size: int, align: int)
    requires align > 0
  {
    size % align == 0 ==> forall c | FirstFit(sizes, size, c) :: sizes[c] % align == 0
  }

  lemma AlignedSkip(sizes: seq<int>, size: int, align: int)
    requires align > 0 && size >= 0 && size % align == 0
    ensures (size + align) % align == 0 && forall q | size < q < size + align :: AlignedAt(sizes, q, align)
  {
    AlignedStep(size, align);
  }

  lemma SmallPages(g: Config)
    requires g.Valid()
    ensures g.PageSize() <= MAX_SIZE
  {
    Pow2Sum(9, 9);
    assert Pow2(9) == 512;
    Pow2Order(g.pageShift, 18);
  }

  datatype Outcome = Ready | TooManyClasses | Unaligned

  class SizeMap {
    const classArray: array<int>
    var classToSize: seq<int>
    var classToPages: seq<int>
    var numObjectsToMove: seq<int>
    var numSizeClasses: int

    constructor ()
      ensures fresh(classArray) && classArray.Length == CLASS_ARRAY_SIZE
    {
      classArray := new int[CLASS_ARRAY_SIZE](_ => 0);
      classToSize, classToPages, numObjectsToMove, numSizeClasses := [], [], [], 0;
    }

    /** Marks the indices of one class, from the size after the previous class on. */
    method FillClass(sizes: seq<int>, c: int, nextSize: int)
      requires classArray.Length == CLASS_ARRAY_SIZE && GridSizes(sizes) && 1 <= c < |sizes|
      requires nextSize == if c == 1 then 0 else sizes[c - 1] + 8
      requires Indexed(sizes, classArray[..], c - 1)
      modifies classArray
      ensures Indexed(sizes, classArray[..], c)
    {
      hide ClassIndex, OnGrid, GridSizes, Indexed, Eighth;
      GridFacts(sizes, c);
      FirstEighth(sizes, c);
      ghost var low := if c == 1 then 0 else ClassIndex(sizes[c - 1]) + 1;
      ghost var before, top := classArray[..], low - 1;
      var s := nextSize;
      while s <= sizes[c]
        invariant nextSize <= s && (s <= sizes[c] || s == sizes[c] + 8) && Eighth(s)
        invariant low - 1 <= top < CLASS_ARRAY_SIZE && top == if s == nextSize then low - 1 else ClassIndex(s - 8)
        invariant forall i | 0 <= i < low :: classArray[i] == before[i]
        invariant forall i | low <= i <= top :: classArray[i] == c
        decreases sizes[c] - s
      {
        NextEighth(sizes, c, s);
        IndexStep(s);
        FirstIndex(sizes, c, s);
        top := ClassIndex(s);
        classArray[ClassIndex(s)] := c;
        s := s + 8;
      }
      KeepIndexed(sizes, before, classArray[..], c, low);
    }

    ghost predicate Exact()
      reads this`classToSize, classArray
    {
      && classArray.Length == CLASS_ARRAY_SIZE && GridSizes(classToSize)
      && Indexed(classToSize, classArray[..], |classToSize| - 1)
    }

    /** The class of a size is the first that is large enough. */
    method SizeClass(size: int) returns (c: int)
      requires Exact() && 0 <= size <= MAX_SIZE
      ensures FirstFit(classToSize, size, c)
    {
      IndexedFits(classToSize, classArray[..], size, |classToSize| - 1);
      c := classArray[ClassIndex(size)];
    }

    /** GetSizeClass: a size has a class exactly if it is not too large. */
    method GetSizeClass(size: int) returns (found: bool, c: int)
      requires Exact() && size >= 0
      ensures found <==> size <= MAX_SIZE
      ensures found ==> FirstFit(classToSize, size, c)
    {
      if size <= MAX_SIZE {
        c := SizeClass(size);
        return true, c;
      }
      return false, 0;
    }

    /** Init's own check of the table, which always passes. */
    method DoubleCheck() returns (ok: bool)
      requires Exact()
      ensures ok
    {
      hide ClassIndex, Indexed, OnGrid;
      ok := true;
      var size := 0;
      while size <= MAX_SIZE
        invariant 0 <= size && ok
        decreases MAX_SIZE - size
      {
        var c := SizeClass(size);
        var bad := c <= 0 || c >= |classToSize| || (c > 1 && size <= classToSize[c - 1])
                   || size > classToSize[c] || classToSize[c] == 0;
        ok := ok && !bad;
        size := size + if size <= MAX_SMALL_SIZE then 8 else 128;
      }
    }

    /** All multiples of the alignment below a page have classes that are multiples too. */
    ghost predicate NaturalAt(g: Config, align: int)
      requires Exact() && align > 0
      reads this`classToSize, classArray
    {
      forall size | 0 < size < g.PageSize() :: AlignedAt(classToSize, size, align)
    }

    lemma AlignedOnce(size: int, align: int, c: int)
      requires Exact() && align > 0 && size % align == 0 && FirstFit(classToSize, size, c)
      ensures 1 <= c < |classToSize| && (AlignedAt(classToSize, size, align) <==> classToSize[c] % align == 0)
    {
      hide OnGrid, Indexed;
      OneClass(classToSize, size, c);
    }

    /** Init's check that aligned sizes have aligned classes. */
    method CheckAlignment(g: Config) returns (ok: bool)
      requires Exact() && g.Valid()
      ensures ok <==> forall e: nat | g.minAlign <= Pow2(e) <= g.PageSize() :: NaturalAt(g, Pow2(e))
    {
      hide Exact, Pow2;
      var align := g.minAlign;
      EightSixteen();
      ghost var first := if g.minAlign == 8 then 3 else 4;
      ghost var e := first;
      forall d: nat ensures Pow2(d) >= 1 {
        Pow2Positive(d);
      }
      while align <= g.PageSize()
        invariant e >= first && align == Pow2(e) >= 8
        invariant forall d | first <= d < e :: NaturalAt(g, Pow2(d))
        decreases g.PageSize() - align
      {
        ok := CheckOneAlignment(g, align);
        if !ok {
          Pow2Order(first, e);
          return;
        }
        Pow2Doubles(e);
        e := e + 1;
        align := align * 2;
      }
      ok := true;
      forall d: nat | g.minAlign <= Pow2(d) <= g.PageSize() ensures NaturalAt(g, Pow2(d)) {
        Pow2Order(d, first);
        Pow2Order(e, d);
      }
    }

    method CheckOneAlignment(g: Config, align: int) returns (ok: bool)
      requires Exact() && g.Valid() && align >= 8
      ensures ok <==> NaturalAt(g, align)
    {
      hide Pow2, Exact, FirstFit, AlignedAt;
      SmallPages(g);
      var size := align;
      AlignedSkip(classToSize, 0, align);
      while size < g.PageSize()
        invariant size >= align && size % align == 0
        invariant forall q | 0 < q < size :: AlignedAt(classToSize, q, align)
        decreases g.PageSize() - size
      {
        var c := SizeClass(size);
        AlignedOnce(size, align, c);
        if classToSize[c] % align != 0 {
          return false;
        }
        AlignedSkip(classToSize, size, align);
        size := size + align;
      }
      ok := true;
    }

    /** Builds the tables. The only failures are too many classes, or a size below a page
        whose class is less aligned than it is. */
    method Init(g: Config) returns (r: Outcome)
      requires g.Valid() && Moves(g) && classArray.Length == CLASS_ARRAY_SIZE
      modifies this, classArray
      ensures Classes(g, classToSize, classToPages) && numSizeClasses == |classToSize|
      ensures forall v | Candidate(g, v) :: Served(g, classToSize, classToPages, v)
      ensures r == TooManyClasses <==> numSizeClasses > CLASS_SIZES_MAX
      ensures r != TooManyClasses ==> Exact()
      ensures r != TooManyClasses ==> (r == Ready <==> forall e: nat | g.minAlign <= Pow2(e) <= g.PageSize() :: NaturalAt(g, Pow2(e)))
      ensures r == Ready ==>
        && |numObjectsToMove| == numSizeClasses
        && (forall c | 1 <= c < numSizeClasses :: numObjectsToMove[c] == NumMoveSize(g, classToSize[c]))
        && ((forall c | 1 <= c < numSizeClasses :: numObjectsToMove[c] >= 1) <==> g.transfer >= 1)
    {
      hide Classes, Served, Candidate, Pow2, OnGrid, ClassIndex;
      classToSize, classToPages := ComputeClasses(g);
      numSizeClasses := |classToSize|;
      if numSizeClasses > CLASS_SIZES_MAX {
        return TooManyClasses;
      }
      ClassesOnGrid(g, classToSize, classToPages);
      FillTable();
      var fine := DoubleCheck();
      var aligned := CheckAlignment(g);
      if !aligned {
        return Unaligned;
      }
      FillMoves(g);
      r := Ready;
    }

    method FillMoves(g: Config)
      requires GridSizes(classToSize) && numSizeClasses == |classToSize|
      modifies this`numObjectsToMove
      ensures |numObjectsToMove| == numSizeClasses
      ensures forall c | 1 <= c < numSizeClasses :: numObjectsToMove[c] == NumMoveSize(g, classToSize[c])
      ensures (forall c | 1 <= c < numSizeClasses :: numObjectsToMove[c] >= 1) <==> g.transfer >= 1
    {
      hide NumMoveSize;
      numObjectsToMove := [0];
      for cl := 1 to numSizeClasses
        invariant |numObjectsToMove| == cl
        invariant forall c | 1 <= c < cl :: numObjectsToMove[c] == NumMoveSize(g, classToSize[c])
      {
        numObjectsToMove := numObjectsToMove + [NumMoveSize(g, classToSize[cl])];
      }
      forall c | 1 <= c < numSizeClasses ensures numObjectsToMove[c] >= 1 <==> g.transfer >= 1 {
        MovesSome(g, classToSize[c]);
      }
      assert numObjectsToMove[1] >= 1 <==> g.transfer >= 1;
    }

    method FillTable()
      requires classArray.Length == CLASS_ARRAY_SIZE && GridSizes(classToSize)
      modifies classArray
      ensures Exact()
    {
      hide OnGrid, ClassIndex;
      var nextSize := 0;
      for c := 1 to |classToSize|
        invariant nextSize == if c == 1 then 0 else classToSize[c - 1] + 8
        invariant Indexed(classToSize, classArray[..], c - 1)
      {
        FillClass(classToSize, c, nextSize);
        nextSize := classToSize[c] + 8;
      }
    }
  }
}
