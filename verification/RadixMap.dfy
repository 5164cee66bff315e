/** The radix trees that hold the page map. */
module RadixMap {
  import opened Arith

  /** What a page map stores. */
  type Pointer = nat
  const NULL: Pointer := 0

  /** Keys are 64-bit numbers; the sum start + n may wrap around. */
  const NUMBERS: int := 0x1_0000_0000_0000_0000

  type Leaf = array<Pointer>
  type Leaf? = array?<Pointer>

  /** The last key of the n keys from start, as the code computes it. */
  function LastKey(start: int, n: int): (k: nat) { (start + n - 1) % NUMBERS }

  /** The last key computed is right exactly when the keys do not run past the largest
      number; else it lies before the first, and a loop up to it does nothing. */
  lemma LastKeyWraps(start: int, n: int)
    requires 0 <= start < NUMBERS && 1 <= n < NUMBERS
    ensures start <= LastKey(start, n) <==> start + n <= NUMBERS
    ensures start + n <= NUMBERS ==> LastKey(start, n) == start + n - 1
  {
    if start + n - 1 >= NUMBERS {
      ModUnique(start + n - 1, NUMBERS, 1, start + n - 1 - NUMBERS);
    }
  }

  /** k >> log(d) and k & (d - 1), for d a power of two. */
  function Block(k: nat, d: nat): nat
    requires d > 0
  {
    k / d
  }

  function Place(k: nat, d: nat): (p: nat)
    requires d > 0
    ensures p < d
  {
    k % d
  }

  lemma BlockRange(k: nat, d: nat, m: nat)
    requires d > 0
    ensures k < d * m <==> Block(k, d) < m
  {
    BlockBelow(k, d, m);
  }

  lemma BlockPlace(j: nat, k: nat, d: nat)
    requires d > 0 && Block(j, d) == Block(k, d) && Place(j, d) == Place(k, d)
    ensures j == k
  {
    SamePlace(j, k, d);
  }

  /** The first key after k's block. */
  lemma NextBlock(k: nat, d: nat)
    requires d > 0
    ensures k < (Block(k, d) + 1) * d
    ensures forall j: nat | k <= j < (Block(k, d) + 1) * d :: Block(j, d) == Block(k, d)
  {
    BlockEnd(k, d);
  }

  /** The key at place i of block b. */
  lemma InBlock(b: nat, i: nat, d: nat)
    requires i < d
    ensures b * d + i >= 0 && Block(b * d + i, d) == b && Place(b * d + i, d) == i
  {
    MulNonNeg(b, d);
    DivUnique(b * d + i, d, b, i);
  }

  lemma BlockStart(k: nat, d: nat)
    requires d > 0
    ensures Block(k, d) * d + Place(k, d) == k && (Block(k, d) + 1) * d == Block(k, d) * d + d
  {
  }

  /** The allocator's answers, by the number of the call: does it give memory? */
  type Memory = nat -> bool

  /** One of these calls got no memory. */
  ghost predicate RanOut(memory: Memory, from: nat, to: nat) { exists i: nat :: from <= i < to && !memory(i) }

  lemma RanOutSteps(memory: Memory, a: nat, b: nat, c: nat)
    requires a <= b <= c
    ensures RanOut(memory, a, c) <==> RanOut(memory, a, b) || RanOut(memory, b, c)
    ensures !RanOut(memory, a, a)
  {
  }

  class PageMap2 {
    const bits: nat
    const leafLength: nat
    const root: array<Leaf?>
    ghost var leaves: set<Leaf>

    /** The allocator, and how often it was called. */
    const memory: Memory
    var calls: nat

    ghost predicate Valid()
      reads this`leaves, root, leaves
    {
      && leafLength > 0 && leafLength * root.Length == Pow2(bits)
      && (forall i | 0 <= i < root.Length && root[i] != null :: root[i] in leaves && root[i].Length == leafLength)
      && (forall i, j | 0 <= i < j < root.Length && root[i] != null :: root[i] != root[j])
    }

    /** Is there a leaf for key k? */
    ghost predicate Ensured(k: nat)
      requires Valid()
      reads this`leaves, root, leaves
    {
      k < Pow2(bits) && (BlockRange(k, leafLength, root.Length); root[Block(k, leafLength)] != null)
    }

    function Get(k: nat): Pointer
      requires Valid()
      reads this`leaves, root, leaves
    {
      BlockRange(k, leafLength, root.Length);
      if k >= Pow2(bits) || root[Block(k, leafLength)] == null then NULL
      else root[Block(k, leafLength)][Place(k, leafLength)]
    }

    constructor (bits: nat, memory: Memory)
      requires bits < 64
      ensures Valid() && fresh(root) && leaves == {} && this.bits == bits && this.memory == memory
      ensures forall k: nat :: Get(k) == NULL && !Ensured(k)
    {
      hide Block, Place, Pow2;
      var leafBits := (bits + 1) / 2;
      Pow2Sum(leafBits, bits - leafBits);
      Pow2Positive(leafBits);
      this.bits, leafLength := bits, Pow2(leafBits);
      this.memory, calls := memory, 0;
      root := new Leaf?[Pow2(bits - leafBits)](_ => null);
      leaves := {};
      new;
      forall k: nat ensures Get(k) == NULL && !Ensured(k) {
        BlockRange(k, leafLength, root.Length);
      }
    }

    method Set(k: nat, v: Pointer)
      requires Valid() && Ensured(k)
      modifies leaves
      ensures Valid()
      ensures forall j: nat :: Get(j) == if j == k then v else old(Get(j))
      ensures forall j: nat :: Ensured(j) == old(Ensured(j))
    {
      hide Block, Place, Pow2;
      BlockRange(k, leafLength, root.Length);
      root[Block(k, leafLength)][Place(k, leafLength)] := v;
      forall j: nat | j != k && j < Pow2(bits)
        ensures Get(j) == old(Get(j))
      {
        BlockRange(j, leafLength, root.Length);
        if Block(j, leafLength) == Block(k, leafLength) && Place(j, leafLength) == Place(k, leafLength) {
          BlockPlace(j, k, leafLength);
        }
      }
    }

    /** Makes a leaf for the block of key, unless the allocator has no memory. */
    method MakeLeaf(key: nat) returns (refused: bool)
      requires Valid() && key < Pow2(bits) && !Ensured(key)
      modifies this`calls, this`leaves, root
      ensures calls == old(calls) + 1 && refused == !memory(old(calls))
      ensures Valid() && old(leaves) <= leaves && fresh(leaves - old(leaves))
      ensures forall k: nat :: Get(k) == old(Get(k))
      ensures forall k: nat :: Ensured(k) <==> old(Ensured(k)) || (!refused && k < Pow2(bits) && Block(k, leafLength) == Block(key, leafLength))
    {
      hide Block, Place, Pow2;
      BlockRange(key, leafLength, root.Length);
      refused := !memory(calls);
      calls := calls + 1;
      if refused {
        return;
      }
      var leaf := new Pointer[leafLength](_ => NULL);
      root[Block(key, leafLength)] := leaf;
      leaves := leaves + {leaf};
      forall k: nat | k < Pow2(bits)
        ensures Get(k) == old(Get(k)) && (Ensured(k) <==> old(Ensured(k)) || Block(k, leafLength) == Block(key, leafLength))
      {
        BlockRange(k, leafLength, root.Length);
      }
    }

    /** The work of Ensure for the block of one key. */
    method EnsureBlock(key: nat) returns (ok: bool)
      requires Valid()
      modifies this`calls, this`leaves, root
      ensures Valid() && old(leaves) <= leaves && fresh(leaves - old(leaves))
      ensures forall k: nat :: Get(k) == old(Get(k))
      ensures forall k: nat | old(Ensured(k)) :: Ensured(k)
      ensures calls >= old(calls)
      ensures ok <==> !RanOut(memory, old(calls), calls) && key < Pow2(bits)
      ensures ok ==> forall k | key <= k < (Block(key, leafLength) + 1) * leafLength :: Ensured(k)
    {
      hide Block, Place, Pow2;
      ok := true;
      var i1 := Block(key, leafLength);
      BlockRange(key, leafLength, root.Length);
      if i1 >= root.Length {
        return false;
      }
      if root[i1] == null {
        var refused := MakeLeaf(key);
        ok := !refused;
      }
      NextBlock(key, leafLength);
      forall k: nat | key <= k < (Block(key, leafLength) + 1) * leafLength ensures ok ==> Ensured(k) {
        BlockRange(k, leafLength, root.Length);
      }
    }

    /** Makes the n keys from start settable. It fails only beyond the largest key or when
        the allocator has no memory; what it had made by then stays. */
    method Ensure(start: nat, n: nat) returns (ok: bool)
      requires Valid() && start < NUMBERS && n < NUMBERS
      modifies this`calls, this`leaves, root
      ensures Valid() && old(leaves) <= leaves && fresh(leaves - old(leaves))
      ensures forall k: nat :: Get(k) == old(Get(k))
      ensures forall k: nat | old(Ensured(k)) :: Ensured(k)
      ensures ok <==> !RanOut(memory, old(calls), calls) && (start > LastKey(start, n) || LastKey(start, n) < Pow2(bits))
      ensures ok ==> forall k | start <= k <= LastKey(start, n) :: Ensured(k)
      ensures start > LastKey(start, n) ==> unchanged(this) && unchanged(root)
    {
      hide Block, Place, Pow2, LastKey, Get, Ensured, Valid, RanOut;
      ghost var calls0 := calls;
      RanOutSteps(memory, calls0, calls, calls);
      var key := start;
      while key <= LastKey(start, n)
        invariant Valid() && old(leaves) <= leaves && fresh(leaves - old(leaves))
        invariant start <= key && calls >= calls0 && !RanOut(memory, calls0, calls)
        invariant forall k: nat :: Get(k) == old(Get(k))
        invariant forall k: nat | old(Ensured(k)) :: Ensured(k)
        invariant forall k | start <= k < key :: Ensured(k)
        invariant start > LastKey(start, n) ==> unchanged(this) && unchanged(root)
        decreases LastKey(start, n) + 1 - key
      {
        LeafPositive();
        NextBlock(key, leafLength);
        ghost var calls1 := calls;
        ok := EnsureBlock(key);
        RanOutSteps(memory, calls0, calls1, calls);
        if !ok {
          return;
        }
        key := (Block(key, leafLength) + 1) * leafLength;
      }
      if start <= LastKey(start, n) {
        EnsuredBound(LastKey(start, n));
      }
      ok := true;
    }

    lemma LeafPositive()
      requires Valid()
      ensures leafLength > 0
    {
    }

    lemma EnsuredBound(k: nat)
      requires Valid() && Ensured(k)
      ensures k < Pow2(bits)
    {
    }

    /** The first pointer set at or after key k0; `at` is its key. */
    method Next(k0: nat) returns (v: Pointer, ghost at: nat)
      requires Valid()
      ensures v == NULL ==> forall j | j >= k0 :: Get(j) == NULL
      ensures v != NULL ==> at >= k0 && Get(at) == v && forall j | k0 <= j < at :: Get(j) == NULL
    {
      hide Block, Place, Pow2;
      v, at := NULL, 0;
      var k := k0;
      while k < Pow2(bits)
        invariant k0 <= k && forall j | k0 <= j < k :: Get(j) == NULL
      {
        BlockRange(k, leafLength, root.Length);
        NextBlock(k, leafLength);
        var i1 := Block(k, leafLength);
        var leaf := root[i1];
        if leaf != null {
          BlockStart(k, leafLength);
          var i2 := Place(k, leafLength);
          while i2 < leafLength
            invariant Place(k, leafLength) <= i2 <= leafLength
            invariant forall j | k0 <= j < i1 * leafLength + i2 :: Get(j) == NULL
          {
            InBlock(i1, i2, leafLength);
            BlockRange(i1 * leafLength + i2, leafLength, root.Length);
            if leaf[i2] != NULL {
              return leaf[i2], i1 * leafLength + i2;
            }
            i2 := i2 + 1;
          }
        }
        k := (i1 + 1) * leafLength;
      }
    }
  }

  /** The middle index of a key is its block number's place among the blocks. */
  lemma BlockOfBlock(k: nat, d: nat, m: nat)
    requires d > 0 && m > 0
    ensures d * m > 0 && Block(k, d * m) == Block(Block(k, d), m)
    ensures (Block(k, d * m) + 1) * (d * m) == (Block(Block(k, d), m) + 1) * m * d
  {
    DivDiv(k, d, m);
    assert k / d / m == Block(Block(k, d), m);
  }

  class Node {
    const ptrs: array<Leaf?>

    constructor (length: nat)
      ensures fresh(ptrs) && ptrs.Length == length && forall i | 0 <= i < length :: ptrs[i] == null
    {
      ptrs := new Leaf?[length](_ => null);
    }
  }

  class PageMap3 {
    const bits: nat
    const interiorLength: nat
    const leafLength: nat
    const root: array<Node?>
    ghost var tables: set<array<Leaf?>>
    ghost var leaves: set<Leaf>

    /** The allocator, and how often it was called. */
    const memory: Memory
    var calls: nat

    ghost predicate Shape()
      reads this`tables, root
    {
      && leafLength > 0 && interiorLength > 0 && root.Length == interiorLength
      && leafLength * (interiorLength * interiorLength) == Pow2(bits)
      && (forall i | 0 <= i < root.Length && root[i] != null :: root[i].ptrs in tables && root[i].ptrs.Length == interiorLength)
      && (forall i, j | 0 <= i < j < root.Length && root[i] != null && root[j] != null :: root[i].ptrs != root[j].ptrs)
    }

    /** The leaf of the b-th block of keys. */
    ghost function LeafAt(b: nat): Leaf?
      requires Shape() && b < interiorLength * interiorLength
      reads this`tables, root, tables
    {
      BlockRange(b, interiorLength, interiorLength);
      var node := root[Block(b, interiorLength)];
      if node == null then null else node.ptrs[Place(b, interiorLength)]
    }

    ghost predicate Valid()
      reads this`tables, this`leaves, root, tables, leaves
    {
      && Shape()
      && (forall b | 0 <= b < interiorLength * interiorLength && LeafAt(b) != null :: LeafAt(b) in leaves && LeafAt(b).Length == leafLength)
      && (forall b, c | 0 <= b < c < interiorLength * interiorLength && LeafAt(b) != null :: LeafAt(b) != LeafAt(c))
    }

    /** Is there a leaf for key k? */
    ghost predicate Ensured(k: nat)
      requires Valid()
      reads this`tables, this`leaves, root, tables, leaves
    {
      k < Pow2(bits) && (BlockRange(k, leafLength, interiorLength * interiorLength); LeafAt(Block(k, leafLength)) != null)
    }

    function Get(k: nat): Pointer
      requires Valid()
      reads this`tables, this`leaves, root, tables, leaves
    {
      BlockRange(k, leafLength, interiorLength * interiorLength);
      BlockRange(Block(k, leafLength), interiorLength, interiorLength);
      BlockOfBlock(k, leafLength, interiorLength);
      var i1 := Block(k, leafLength * interiorLength);
      var i2 := Place(Block(k, leafLength), interiorLength);
      var i3 := Place(k, leafLength);
      if k >= Pow2(bits) || root[i1] == null || root[i1].ptrs[i2] == null then NULL
      else (assert LeafAt(Block(k, leafLength)) != null; root[i1].ptrs[i2][i3])
    }

    /** A lookup reads the leaf of its key's block. */
    lemma GetAt(k: nat)
      requires Valid()
      ensures k < Pow2(bits) <==> Block(k, leafLength) < interiorLength * interiorLength
      ensures k >= Pow2(bits) ==> Get(k) == NULL
      ensures k < Pow2(bits) ==>
        var leaf := LeafAt(Block(k, leafLength));
        Get(k) == if leaf == null then NULL else leaf[Place(k, leafLength)]
    {
      BlockRange(k, leafLength, interiorLength * interiorLength);
      BlockOfBlock(k, leafLength, interiorLength);
    }

    constructor (bits: nat, memory: Memory)
      requires 2 <= bits < 64
      ensures Valid() && fresh(root) && tables == {} && leaves == {} && this.bits == bits && this.memory == memory
      ensures forall k: nat :: Get(k) == NULL && !Ensured(k)
    {
      hide Block, Place, Pow2;
      var interiorBits := (bits + 2) / 3;
      var leafBits := bits - 2 * interiorBits;
      Pow2Sum(interiorBits, interiorBits);
      Pow2Sum(leafBits, 2 * interiorBits);
      Pow2Positive(leafBits);
      Pow2Positive(interiorBits);
      this.bits, leafLength, interiorLength := bits, Pow2(leafBits), Pow2(interiorBits);
      this.memory, calls := memory, 0;
      root := new Node?[Pow2(interiorBits)](_ => null);
      tables, leaves := {}, {};
      new;
      forall b: nat | b < interiorLength * interiorLength ensures LeafAt(b) == null {
        BlockRange(b, interiorLength, interiorLength);
      }
      forall k: nat ensures Get(k) == NULL && !Ensured(k) {
        GetAt(k);
      }
    }

    method Set(k: nat, v: Pointer)
      requires Valid() && Ensured(k)
      modifies leaves
      ensures Valid()
      ensures forall j: nat :: Get(j) == if j == k then v else old(Get(j))
      ensures forall j: nat :: Ensured(j) == old(Ensured(j))
    {
      hide Block, Place, Pow2;
      forall j: nat {
        GetAt(j);
      }
      BlockOfBlock(k, leafLength, interiorLength);
      BlockRange(Block(k, leafLength), interiorLength, interiorLength);
      var i1 := Block(k, leafLength * interiorLength);
      var i2 := Place(Block(k, leafLength), interiorLength);
      ghost var leaf := LeafAt(Block(k, leafLength));
      root[i1].ptrs[i2][Place(k, leafLength)] := v;
      forall j: nat | j < Pow2(bits) ensures Get(j) == if j == k then v else old(Get(j)) {
        BlockRange(j, leafLength, interiorLength * interiorLength);
        if Block(j, leafLength) == Block(k, leafLength) && Place(j, leafLength) == Place(k, leafLength) {
          BlockPlace(j, k, leafLength);
        }
        GetAt(j);
      }
    }

    /** Everything reachable, but for the root. */
    ghost function Parts(): set<object>
      reads this`tables, this`leaves
    {
      tables + leaves
    }

    /** Makes an interior node, unless the allocator has no memory. */
    method MakeNode(i1: nat) returns (refused: bool)
      requires Valid() && i1 < root.Length && root[i1] == null
      modifies this`calls, this`tables, root
      ensures calls == old(calls) + 1 && refused == !memory(old(calls))
      ensures Valid() && old(tables) <= tables && fresh(tables - old(tables))
      ensures !refused ==> root[i1] != null
      ensures forall k: nat :: Get(k) == old(Get(k)) && Ensured(k) == old(Ensured(k))
    {
      hide Block, Place, Pow2;
      forall k: nat {
        GetAt(k);
      }
      refused := !memory(calls);
      calls := calls + 1;
      if refused {
        return;
      }
      var node := new Node(interiorLength);
      root[i1] := node;
      tables := tables + {node.ptrs};
      forall b: nat | b < interiorLength * interiorLength ensures LeafAt(b) == old(LeafAt(b)) {
        BlockRange(b, interiorLength, interiorLength);
      }
      forall k: nat {
        GetAt(k);
      }
    }

    /** Makes the leaf of block b. */
    method PlaceLeaf(b: nat)
      requires Valid() && b < interiorLength * interiorLength && Block(b, interiorLength) < root.Length
      requires root[Block(b, interiorLength)] != null && LeafAt(b) == null
      modifies this`leaves, tables
      ensures Valid() && old(leaves) <= leaves && fresh(leaves - old(leaves))
      ensures LeafAt(b) != null && fresh(LeafAt(b)) && forall i | 0 <= i < leafLength :: LeafAt(b)[i] == NULL
      ensures forall c: nat | c < interiorLength * interiorLength && c != b :: LeafAt(c) == old(LeafAt(c))
    {
      hide Block, Place, Pow2;
      var leaf := new Pointer[leafLength](_ => NULL);
      root[Block(b, interiorLength)].ptrs[Place(b, interiorLength)] := leaf;
      leaves := leaves + {leaf};
      forall c: nat | c < interiorLength * interiorLength && c != b ensures LeafAt(c) == old(LeafAt(c)) {
        BlockRange(c, interiorLength, interiorLength);
        if Block(c, interiorLength) == Block(b, interiorLength) && Place(c, interiorLength) == Place(b, interiorLength) {
          BlockPlace(c, b, interiorLength);
        }
      }
    }

    /** Makes the leaf of key's block, unless the allocator has no memory. */
    method MakeLeaf(key: nat) returns (refused: bool)
      requires Valid() && key < Pow2(bits) && !Ensured(key) && Block(key, leafLength * interiorLength) < root.Length
      requires leafLength * interiorLength > 0 && root[Block(key, leafLength * interiorLength)] != null
      modifies this`calls, this`leaves, tables
      ensures calls == old(calls) + 1 && refused == !memory(old(calls))
      ensures Valid() && old(leaves) <= leaves && fresh(leaves - old(leaves))
      ensures forall k: nat :: Get(k) == old(Get(k))
      ensures forall k: nat :: Ensured(k) <==> old(Ensured(k)) || (!refused && k < Pow2(bits) && Block(k, leafLength) == Block(key, leafLength))
    {
      hide Block, Place, Pow2, LeafAt;
      forall k: nat {
        GetAt(k);
      }
      refused := !memory(calls);
      calls := calls + 1;
      if refused {
        return;
      }
      BlockOfBlock(key, leafLength, interiorLength);
      PlaceLeaf(Block(key, leafLength));
      forall k: nat {
        GetAt(k);
      }
    }

    /** The work of Ensure for the block of one key. */
    method EnsureBlock(key: nat) returns (ok: bool)
      requires Valid()
      modifies this`calls, this`tables, this`leaves, root, tables
      ensures Valid() && old(Parts()) <= Parts() && fresh(Parts() - old(Parts()))
      ensures old(leaves) <= leaves && old(tables) <= tables
      ensures fresh(leaves - old(leaves)) && fresh(tables - old(tables))
      ensures forall k: nat :: Get(k) == old(Get(k))
      ensures forall k: nat | old(Ensured(k)) :: Ensured(k)
      ensures calls >= old(calls)
      ensures ok <==> !RanOut(memory, old(calls), calls) && key < Pow2(bits)
      ensures ok ==> forall k | key <= k < (Block(key, leafLength) + 1) * leafLength :: Ensured(k)
    {
      hide Block, Place, Pow2, LeafAt, Get;
      ok := true;
      PathOf(key);
      var i1 := Block(key, leafLength * interiorLength);
      var i2 := Place(Block(key, leafLength), interiorLength);
      if i1 >= interiorLength || i2 >= interiorLength {
        return false;
      }
      if root[i1] == null {
        var refused := MakeNode(i1);
        if refused {
          return false;
        }
        PathOf(key);
      }
      if root[i1].ptrs[i2] == null {
        var refused := MakeLeaf(key);
        if refused {
          return false;
        }
      }
      NextBlock(key, leafLength);
      BlockEnsured(key);
    }

    /** The way to a key's leaf. */
    lemma PathOf(key: nat)
      requires Valid()
      ensures leafLength > 0 && interiorLength > 0 && leafLength * interiorLength > 0 && root.Length == interiorLength
      ensures Block(key, leafLength * interiorLength) < root.Length <==> key < Pow2(bits)
      ensures key < Pow2(bits) ==>
        var node := root[Block(key, leafLength * interiorLength)];
        && (Ensured(key) <==> node != null && node.ptrs[Place(Block(key, leafLength), interiorLength)] != null)
        && Block(key, leafLength) < interiorLength * interiorLength
        && (node != null ==> LeafAt(Block(key, leafLength)) == node.ptrs[Place(Block(key, leafLength), interiorLength)])
    {
      hide Block, Place, Pow2;
      GetAt(key);
      BlockOfBlock(key, leafLength, interiorLength);
      BlockRange(Block(key, leafLength), interiorLength, interiorLength);
    }

    /** A leaf serves all keys of its block. */
    lemma BlockEnsured(key: nat)
      requires Valid() && Ensured(key)
      ensures forall k: nat | Block(k, leafLength) == Block(key, leafLength) :: Ensured(k)
    {
      hide Block, Place, Pow2;
      forall k: nat {
        GetAt(k);
      }
    }

    /** Makes the n keys from start settable. It fails only beyond the largest key or when
        the allocator has no memory; what it had made by then stays. */
    method Ensure(start: nat, n: nat) returns (ok: bool)
      requires Valid() && start < NUMBERS && n < NUMBERS
      modifies this`calls, this`tables, this`leaves, root, tables
      ensures Valid() && old(Parts()) <= Parts() && fresh(Parts() - old(Parts()))
      ensures forall k: nat :: Get(k) == old(Get(k))
      ensures forall k: nat | old(Ensured(k)) :: Ensured(k)
      ensures ok <==> !RanOut(memory, old(calls), calls) && (start > LastKey(start, n) || LastKey(start, n) < Pow2(bits))
      ensures ok ==> forall k | start <= k <= LastKey(start, n) :: Ensured(k)
      ensures start > LastKey(start, n) ==> unchanged(this) && unchanged(root) && unchanged(tables)
    {
      hide Block, Place, Pow2, LastKey, Get, Ensured, Valid, RanOut;
      ghost var calls0 := calls;
      RanOutSteps(memory, calls0, calls, calls);
      var key := start;
      while key <= LastKey(start, n)
        invariant Valid() && old(leaves) <= leaves && old(tables) <= tables
        invariant fresh(leaves - old(leaves)) && fresh(tables - old(tables))
        invariant start <= key && calls >= calls0 && !RanOut(memory, calls0, calls)
        invariant forall k: nat :: Get(k) == old(Get(k))
        invariant forall k: nat | old(Ensured(k)) :: Ensured(k)
        invariant forall k | start <= k < key :: Ensured(k)
        invariant start > LastKey(start, n) ==> unchanged(this) && unchanged(root) && unchanged(tables)
        decreases LastKey(start, n) + 1 - key
      {
        PathOf(key);
        NextBlock(key, leafLength);
        ghost var calls1 := calls;
        ok := EnsureBlock(key);
        RanOutSteps(memory, calls0, calls1, calls);
        if !ok {
          return;
        }
        key := (Block(key, leafLength) + 1) * leafLength;
      }
      if start <= LastKey(start, n) {
        EnsuredBound(LastKey(start, n));
      }
      ok := true;
    }

    lemma EnsuredBound(k: nat)
      requires Valid() && Ensured(k)
      ensures k < Pow2(bits)
    {
    }

    /** The first pointer set at or after key k0; `at` is its key. */
    method Next(k0: nat) returns (v: Pointer, ghost at: nat)
      requires Valid()
      ensures v == NULL ==> forall j | j >= k0 :: Get(j) == NULL
      ensures v != NULL ==> at >= k0 && Get(at) == v && forall j | k0 <= j < at :: Get(j) == NULL
    {
      hide Block, Place, Pow2, LeafAt, Get;
      v, at := NULL, 0;
      var k := k0;
      while k < Pow2(bits)
        invariant k0 <= k && v == NULL && forall j | k0 <= j < k :: Get(j) == NULL
      {
        PathOf(k);
        BlockOfBlock(k, leafLength, interiorLength);
        var i1 := Block(k, leafLength * interiorLength);
        var i2 := Place(Block(k, leafLength), interiorLength);
        if root[i1] == null {
          NoNode(k);
          k := (i1 + 1) * (leafLength * interiorLength);
        } else {
          var leaf := root[i1].ptrs[i2];
          if leaf != null {
            v, at := ScanLeaf(leaf, k);
            if v != NULL {
              return;
            }
          } else {
            NoLeaf(k);
          }
          NextBlock(k, leafLength);
          k := (Block(k, leafLength) + 1) * leafLength;
        }
      }
      forall j | j >= k0 ensures Get(j) == NULL {
        GetAt(j);
      }
    }

    /** Without an interior node, none of the keys it would serve is set. */
    lemma NoNode(k: nat)
      requires Valid() && k < Pow2(bits) && leafLength * interiorLength > 0
      requires Block(k, leafLength * interiorLength) < root.Length && root[Block(k, leafLength * interiorLength)] == null
      ensures k < (Block(k, leafLength * interiorLength) + 1) * (leafLength * interiorLength)
      ensures forall j | k <= j < (Block(k, leafLength * interiorLength) + 1) * (leafLength * interiorLength) :: Get(j) == NULL
    {
      hide Block, Place, Pow2;
      NextBlock(k, leafLength * interiorLength);
      forall j | k <= j < (Block(k, leafLength * interiorLength) + 1) * (leafLength * interiorLength) ensures Get(j) == NULL {
        assert Block(j, leafLength * interiorLength) == Block(k, leafLength * interiorLength);
        BlockOfBlock(j, leafLength, interiorLength);
        GetAt(j);
      }
    }

    /** Nor without a leaf. */
    lemma NoLeaf(k: nat)
      requires Valid() && k < Pow2(bits) && !Ensured(k)
      ensures forall j: nat | Block(j, leafLength) == Block(k, leafLength) :: Get(j) == NULL
    {
      hide Block, Place, Pow2;
      forall j: nat {
        GetAt(j);
      }
    }

    /** Looks for the first pointer at or after key k in k's leaf. */
    method ScanLeaf(leaf: Leaf, k: nat) returns (v: Pointer, ghost at: nat)
      requires Valid() && k < Pow2(bits) && Ensured(k) && leaf == LeafAt(Block(k, leafLength))
      ensures v == NULL ==> forall j | k <= j < (Block(k, leafLength) + 1) * leafLength :: Get(j) == NULL
      ensures v != NULL ==> at >= k && Get(at) == v && forall j | k <= j < at :: Get(j) == NULL
    {
      hide Block, Place, Pow2, LeafAt, Get;
      v, at := NULL, 0;
      BlockStart(k, leafLength);
      ghost var first := Block(k, leafLength) * leafLength;
      var i3 := Place(k, leafLength);
      while i3 < leafLength
        invariant Place(k, leafLength) <= i3 <= leafLength
        invariant forall j | k <= j < first + i3 :: Get(j) == NULL
      {
        InBlock(Block(k, leafLength), i3, leafLength);
        GetAt(k);
        GetAt(first + i3);
        if leaf[i3] != NULL {
          return leaf[i3], first + i3;
        }
        i3 := i3 + 1;
      }
    }
  }
}
