/** A map from addresses to values that can also find the range an address points into.
    Addresses are grouped in blocks, blocks in clusters, and clusters are hashed. */
module AddressMap {
  import opened Arith

  datatype Option<T> = None | Some(value: T)

  const ADDRESSES: int := 0x1_0000_0000_0000_0000
  const BLOCK_SIZE: int := 128
  const CLUSTER_BLOCKS: int := 8192
  const CLUSTER_SIZE: int := 0x10_0000
  const HASH_SIZE: int := 4096
  const HASH_MULTIPLIER: int := 2654435769

  type Address = a: int | 0 <= a < ADDRESSES

  datatype Entry<V> = Entry(key: Address, value: V)

  /** Multiplicative hashing: the top 12 bits of a 32-bit product. */
  function HashInt(x: Address): (h: int)
    ensures 0 <= h < HASH_SIZE
  {
    ((x % 0x1_0000_0000) * HASH_MULTIPLIER) % 0x1_0000_0000 / 0x10_0000
  }

  function ClusterId(a: Address): (c: Address) { a / CLUSTER_SIZE }

  /** The number of a's block within its cluster. */
  function BlockId(a: Address): (b: int)
    ensures 0 <= b < CLUSTER_BLOCKS
  {
    (a / BLOCK_SIZE) % CLUSTER_BLOCKS
  }

  /** The number of a's block over all clusters. */
  function BlockNumber(a: Address): int { a / BLOCK_SIZE }

  lemma Blocks(a: Address)
    ensures BlockNumber(a) == CLUSTER_BLOCKS * ClusterId(a) + BlockId(a)
  {
  }

  lemma SameBlock(a: Address, b: Address)
    ensures BlockNumber(a) == BlockNumber(b) <==> ClusterId(a) == ClusterId(b) && BlockId(a) == BlockId(b)
  {
    Blocks(a);
    Blocks(b);
  }

  // ---- Ranges ----

  /** The key points into the range of the given size at a, where a range of size 0 still
      takes up its start. */
  ghost predicate Inside(a: Address, size: nat, key: Address) { a <= key && (a == key || key < a + size) }

  /** The entries are disjoint memory ranges. */
  ghost predicate Ranges<V>(contents: map<Address, V>, size: V -> nat) {
    && (forall a | a in contents :: a + size(contents[a]) < ADDRESSES)
    && (forall a, b | a in contents && b in contents && a < b :: a + size(contents[a]) <= b)
  }

  /** a's block is the key's, or ends at most maxSize before the key. */
  ghost predicate Near(a: Address, key: Address, maxSize: nat) {
    BlockNumber(a) == BlockNumber(key) || key - (BLOCK_SIZE * BlockNumber(a) + BLOCK_SIZE - 1) <= maxSize
  }

  ghost predicate Bounded<V>(contents: map<Address, V>, size: V -> nat, maxSize: nat) {
    forall a | a in contents :: size(contents[a]) <= maxSize
  }

  /** With a bound on all sizes, every range the key points into is near. */
  lemma BoundedNear<V>(contents: map<Address, V>, size: V -> nat, key: Address, maxSize: nat)
    requires Bounded(contents, size, maxSize)
    ensures forall a | a in contents && Inside(a, size(contents[a]), key) :: Near(a, key, maxSize)
  {
  }

  /** Ranges the key points into start before block n. */
  ghost predicate Below<V>(contents: map<Address, V>, size: V -> nat, key: Address, n: int) {
    forall a | a in contents && Inside(a, size(contents[a]), key) :: BlockNumber(a) < n
  }

  lemma BelowStart<V>(contents: map<Address, V>, size: V -> nat, key: Address, maxSize: nat)
    ensures Below(contents, size, key, BlockNumber(key) + 1) && Reached(key, key, maxSize)
  {
  }

  /** A block before num's block is in num's cluster or before that cluster. */
  lemma BlockOrder(a: Address, num: Address)
    requires BlockNumber(a) <= BlockNumber(num)
    ensures ClusterId(a) == ClusterId(num) || BlockNumber(a) < CLUSTER_BLOCKS * ClusterId(num)
  {
    Blocks(a);
    Blocks(num);
  }

  /** The last address of the block before num's. */
  lemma BlockBack(num: Address)
    requires BlockId(num) != 0
    ensures var n := num / BLOCK_SIZE * BLOCK_SIZE + (BLOCK_SIZE - 1) - BLOCK_SIZE;
            && 0 <= n < num && n % BLOCK_SIZE == BLOCK_SIZE - 1
            && BlockNumber(n) == BlockNumber(num) - 1 && ClusterId(n) == ClusterId(num)
  {
    var n := num / BLOCK_SIZE * BLOCK_SIZE + (BLOCK_SIZE - 1) - BLOCK_SIZE;
    Blocks(num);
    assert BlockNumber(num) >= 1;
    Blocks(n);
  }

  /** The last address of the cluster before num's. */
  lemma ClusterBack(num: Address)
    ensures num >= CLUSTER_SIZE ==>
      var n := num / CLUSTER_SIZE * CLUSTER_SIZE + (CLUSTER_SIZE - 1) - CLUSTER_SIZE;
      0 <= n < num && n % BLOCK_SIZE == BLOCK_SIZE - 1 && BlockNumber(n) + 1 == CLUSTER_BLOCKS * ClusterId(num)
    ensures num < CLUSTER_SIZE ==> ClusterId(num) == 0
    ensures BlockId(num) == 0 ==> BlockNumber(num) == CLUSTER_BLOCKS * ClusterId(num)
  {
    Blocks(num);
    LastOfCluster(num / CLUSTER_SIZE);
    hide BlockId;
    if num < CLUSTER_SIZE {
      DivUnique(num, CLUSTER_SIZE, 0, num);
    }
  }

  /** The last address before cluster c. */
  lemma LastOfCluster(c: int)
    ensures (CLUSTER_SIZE * c - 1) / BLOCK_SIZE == CLUSTER_BLOCKS * c - 1 && (CLUSTER_SIZE * c - 1) % BLOCK_SIZE == BLOCK_SIZE - 1
  {
    DivUnique(CLUSTER_SIZE * c - 1, BLOCK_SIZE, CLUSTER_BLOCKS * c - 1, BLOCK_SIZE - 1);
  }

  lemma EntriesFit<V>(contents: map<Address, V>, size: V -> nat, list: seq<Entry<V>>, id: int, b: int)
    requires Ranges(contents, size) && Holds(list, id, b, contents)
    ensures forall j | 0 <= j < |list| ::
      list[j].key in contents && contents[list[j].key] == list[j].value && list[j].key + size(list[j].value) < ADDRESSES
    ensures forall j | 0 <= j < |list| :: ClusterId(list[j].key) == id && BlockId(list[j].key) == b
  {
  }

  /** Scanning num's block without success moves the bound down by one block, or, if some
      entry lies before the key, rules out all ranges. */
  lemma ScanEmpty<V>(contents: map<Address, V>, size: V -> nat, list: seq<Entry<V>>, num: Address, key: Address)
    requires Ranges(contents, size) && Holds(list, ClusterId(num), BlockId(num), contents)
    requires Below(contents, size, key, BlockNumber(num) + 1)
    requires forall j | 0 <= j < |list| :: !Inside(list[j].key, size(list[j].value), key)
    ensures Below(contents, size, key, BlockNumber(num))
    ensures (exists j :: 0 <= j < |list| && list[j].key <= key) ==> Below(contents, size, key, 0)
  {
    forall a | a in contents && Inside(a, size(contents[a]), key) ensures BlockNumber(a) < BlockNumber(num) {
      if BlockNumber(a) == BlockNumber(num) {
        SameBlock(a, num);
        assert InBlock(a, ClusterId(num), BlockId(num));
      }
    }
    if j :| 0 <= j < |list| && list[j].key <= key {
      var e := list[j].key;
      SameBlock(e, num);
      assert e in contents;
    }
  }

  lemma NoneBelow<V>(contents: map<Address, V>, size: V -> nat, key: Address)
    requires Below(contents, size, key, 0)
    ensures forall a | a in contents :: !Inside(a, size(contents[a]), key)
  {
  }

  /** The walk is at the key or at the end of a block near it. */
  ghost predicate Reached(num: Address, key: Address, maxSize: nat) {
    num == key || (num % BLOCK_SIZE == BLOCK_SIZE - 1 && key - num <= maxSize)
  }

  lemma ReachedEnd(num: Address, key: Address, maxSize: nat)
    requires num % BLOCK_SIZE == BLOCK_SIZE - 1 && key - num <= maxSize
    ensures Reached(num, key, maxSize)
  {
  }

  lemma ReachedNear(a: Address, num: Address, key: Address, maxSize: nat)
    requires Reached(num, key, maxSize) && ClusterId(a) == ClusterId(num) && BlockId(a) == BlockId(num)
    ensures Near(a, key, maxSize)
  {
    SameBlock(a, num);
  }

  /** Below the last address of a block that is too far from the key nothing is near. */
  lemma NoneNear<V>(contents: map<Address, V>, size: V -> nat, key: Address, maxSize: nat, num: Address)
    requires Below(contents, size, key, BlockNumber(num) + 1) && num % BLOCK_SIZE == BLOCK_SIZE - 1
    requires key - num > maxSize
    ensures forall a | a in contents && Inside(a, size(contents[a]), key) :: !Near(a, key, maxSize)
  {
  }

  // ---- Block lists ----

  ghost predicate InBlock(a: Address, id: int, b: int) { ClusterId(a) == id && BlockId(a) == b }

  /** A block's list holds exactly the block's entries of the map, each key once. */
  ghost predicate Holds<V>(list: seq<Entry<V>>, id: int, b: int, contents: map<Address, V>) {
    && (forall i, j | 0 <= i < j < |list| :: list[i].key != list[j].key)
    && (forall i | 0 <= i < |list| :: InBlock(list[i].key, id, b) && list[i].key in contents && contents[list[i].key] == list[i].value)
    && (forall a | a in contents && InBlock(a, id, b) :: exists i | 0 <= i < |list| :: list[i].key == a)
  }

  lemma HoldsChanged<V>(list: seq<Entry<V>>, id: int, b: int, contents: map<Address, V>, i: nat, v: V)
    requires Holds(list, id, b, contents) && i < |list|
    ensures Holds(list[i := Entry(list[i].key, v)], id, b, contents[list[i].key := v])
  {
    var after := list[i := Entry(list[i].key, v)];
    forall a | a in contents && InBlock(a, id, b) ensures exists j | 0 <= j < |after| :: after[j].key == a {
      var j :| 0 <= j < |list| && list[j].key == a;
      assert after[j].key == a;
    }
  }

  lemma HoldsAdded<V>(list: seq<Entry<V>>, id: int, b: int, contents: map<Address, V>, a: Address, v: V)
    requires Holds(list, id, b, contents) && InBlock(a, id, b) && forall i | 0 <= i < |list| :: list[i].key != a
    ensures a !in contents && Holds([Entry(a, v)] + list, id, b, contents[a := v])
  {
    var after := [Entry(a, v)] + list;
    forall x | x in contents[a := v] && InBlock(x, id, b) ensures exists j | 0 <= j < |after| :: after[j].key == x {
      if x == a {
        assert after[0].key == a;
      } else {
        var j :| 0 <= j < |list| && list[j].key == x;
        assert after[j + 1].key == x;
      }
    }
  }

  lemma HoldsRemoved<V>(list: seq<Entry<V>>, id: int, b: int, contents: map<Address, V>, i: nat)
    requires Holds(list, id, b, contents) && i < |list|
    ensures Holds(list[..i] + list[i + 1..], id, b, contents - {list[i].key})
  {
    var after := list[..i] + list[i + 1..];
    forall x | x in contents && x != list[i].key && InBlock(x, id, b) ensures exists j | 0 <= j < |after| :: after[j].key == x {
      var j :| 0 <= j < |list| && list[j].key == x;
      assert after[if j < i then j else j - 1].key == x;
    }
  }

  /** The position of a key in a block's list, -1 if it is not there. */
  method Position<V>(list: seq<Entry<V>>, key: Address) returns (i: int)
    ensures i == -1 ==> forall j | 0 <= j < |list| :: list[j].key != key
    ensures i != -1 ==> 0 <= i < |list| && list[i].key == key
  {
    i := 0;
    while i < |list|
      invariant 0 <= i <= |list| && forall j | 0 <= j < i :: list[j].key != key
    {
      if list[i].key == key {
        return;
      }
      i := i + 1;
    }
    i := -1;
  }

  class Cluster<V> {
    const id: Address
    var blocks: seq<seq<Entry<V>>>

    constructor (id: Address)
      ensures this.id == id && blocks == seq(CLUSTER_BLOCKS, i => [])
    {
      this.id := id;
      blocks := seq(CLUSTER_BLOCKS, i => []);
    }
  }

  class AddressMap<V> {
    const hashtable: array<seq<Cluster<V>>>

    /** The map represented, and the clusters by id. */
    ghost var contents: map<Address, V>
    ghost var clusters: map<Address, Cluster<V>>

    ghost predicate Represents(c: Cluster<V>)
      reads this`contents, c
    {
      && |c.blocks| == CLUSTER_BLOCKS
      && forall b | 0 <= b < CLUSTER_BLOCKS :: Holds(c.blocks[b], c.id, b, contents)
    }

    ghost predicate Hashed()
      reads this`clusters, hashtable
    {
      && hashtable.Length == HASH_SIZE
      && (forall h, i | 0 <= h < HASH_SIZE && 0 <= i < |hashtable[h]| ::
            hashtable[h][i].id in clusters && clusters[hashtable[h][i].id] == hashtable[h][i])
      && (forall id | id in clusters :: clusters[id].id == id && clusters[id] in hashtable[HashInt(id)])
    }

    ghost predicate Valid()
      reads this, hashtable, clusters.Values
    {
      && Hashed()
      && (forall id | id in clusters :: Represents(clusters[id]))
      && (forall a | a in contents :: ClusterId(a) in clusters)
    }

    constructor ()
      ensures Valid() && fresh(hashtable) && contents == map[] && clusters == map[]
    {
      hashtable := new seq<Cluster<V>>[HASH_SIZE](_ => []);
      contents, clusters := map[], map[];
    }

    lemma EmptyCluster(c: Cluster<V>)
      requires c.blocks == seq(CLUSTER_BLOCKS, i => []) && forall a | a in contents :: ClusterId(a) != c.id
      ensures Represents(c)
    {
    }

    /** FindCluster without creating: the cluster of an address, if there is one. */
    method FindCluster(address: Address) returns (c: Cluster?<V>)
      requires Valid()
      ensures c != null <==> ClusterId(address) in clusters
      ensures c != null ==> clusters[ClusterId(address)] == c
    {
      hide Holds, HashInt;
      var id := ClusterId(address);
      var h := HashInt(id);
      var i := 0;
      while i < |hashtable[h]|
        invariant 0 <= i <= |hashtable[h]| && forall j | 0 <= j < i :: hashtable[h][j].id != id
      {
        if hashtable[h][i].id == id {
          return hashtable[h][i];
        }
        i := i + 1;
      }
      c := null;
    }

    /** FindCluster with creation: a missing cluster is made and put first in its chain. */
    method FindOrCreateCluster(address: Address) returns (c: Cluster<V>)
      requires Valid()
      modifies hashtable, this`clusters
      ensures Valid() && ClusterId(address) in clusters && clusters[ClusterId(address)] == c
      ensures forall id | id in clusters && id !in old(clusters) :: fresh(clusters[id])
      ensures forall id | id in old(clusters) :: id in clusters && clusters[id] == old(clusters)[id]
    {
      hide Holds, HashInt, ClusterId, Represents;
      var found := FindCluster(address);
      if found != null {
        return found;
      }
      var id := ClusterId(address);
      var h := HashInt(id);
      c := new Cluster<V>(id);
      EmptyCluster(c);
      hashtable[h] := [c] + hashtable[h];
      clusters := clusters[id := c];
    }

    /** The value stored for a key, if any. */
    method Find(key: Address) returns (r: Option<V>)
      requires Valid()
      ensures r == if key in contents then Some(contents[key]) else None
    {
      hide HashInt;
      var c := FindCluster(key);
      if c != null {
        var block := BlockId(key);
        assert InBlock(key, c.id, block);
        var i := Position(c.blocks[block], key);
        if i != -1 {
          return Some(c.blocks[block][i].value);
        }
      }
      r := None;
    }

    /** Rewriting one block's list to match a change at one key of that block. */
    method Rewrite(c: Cluster<V>, key: Address, list: seq<Entry<V>>, ghost after: map<Address, V>)
      requires Valid() && ClusterId(key) in clusters && clusters[ClusterId(key)] == c
      requires Holds(list, c.id, BlockId(key), after)
      requires SameElsewhere(contents, after, key)
      modifies c`blocks, this`contents
      ensures Valid() && contents == after
    {
      hide HashInt, Holds, BlockId, ClusterId;
      ghost var before := contents;
      c.blocks := c.blocks[BlockId(key) := list];
      contents := after;
      forall id | id in clusters ensures Represents(clusters[id]) {
        var d := clusters[id];
        forall b | 0 <= b < CLUSTER_BLOCKS ensures Holds(d.blocks[b], d.id, b, contents) {
          if d != c || b != BlockId(key) {
            ElsewhereHolds(before, after, key, d.blocks[b], id, b);
          }
        }
      }
    }

    static ghost predicate SameElsewhere(before: map<Address, V>, after: map<Address, V>, key: Address) {
      forall a: Address | a != key :: (a in before <==> a in after) && (a in before ==> before[a] == after[a])
    }

    static lemma ElsewhereHolds(before: map<Address, V>, after: map<Address, V>, key: Address, list: seq<Entry<V>>, id: int, b: int)
      requires SameElsewhere(before, after, key) && Holds(list, id, b, before) && !InBlock(key, id, b)
      ensures Holds(list, id, b, after)
    {
      hide ClusterId, BlockId;
    }

    /** FindMutable followed by a write through the pointer it returns. */
    method Update(key: Address, value: V)
      requires Valid() && key in contents
      modifies this`contents, clusters.Values
      ensures Valid() && contents == old(contents)[key := value]
    {
      hide HashInt, Holds, ClusterId, BlockId;
      var c := FindCluster(key);
      var block := BlockId(key);
      var i := Position(c.blocks[block], key);
      ListedKey(c.blocks[block], c.id, block, key);
      HoldsChanged(c.blocks[block], c.id, block, contents, i, value);
      Rewrite(c, key, c.blocks[block][i := Entry(key, value)], contents[key := value]);
    }

    lemma ListedKey(list: seq<Entry<V>>, id: int, b: int, key: Address)
      requires Holds(list, id, b, contents) && key in contents && InBlock(key, id, b)
      ensures exists i :: 0 <= i < |list| && list[i].key == key
    {
    }

    method Insert(key: Address, value: V)
      requires Valid()
      modifies hashtable, this, clusters.Values
      ensures Valid() && contents == old(contents)[key := value]
      ensures fresh(clusters.Values - old(clusters.Values))
    {
      hide HashInt, Holds, ClusterId, BlockId;
      var c := FindOrCreateCluster(key);
      var block := BlockId(key);
      var i := Position(c.blocks[block], key);
      if i != -1 {
        HoldsChanged(c.blocks[block], c.id, block, contents, i, value);
        Rewrite(c, key, c.blocks[block][i := Entry(key, value)], contents[key := value]);
        return;
      }
      HoldsAdded(c.blocks[block], c.id, block, contents, key, value);
      Rewrite(c, key, [Entry(key, value)] + c.blocks[block], contents[key := value]);
    }

    /** Removes a key and returns the value it had, if any. */
    method FindAndRemove(key: Address) returns (removed: Option<V>)
      requires Valid()
      modifies this`contents, clusters.Values
      ensures Valid() && contents == old(contents) - {key} && clusters == old(clusters)
      ensures removed == if key in old(contents) then Some(old(contents)[key]) else None
    {
      hide HashInt, ClusterId, BlockId;
      var c := FindCluster(key);
      if c != null {
        var block := BlockId(key);
        assert InBlock(key, c.id, block);
        var i := Position(c.blocks[block], key);
        if i != -1 {
          removed := Some(c.blocks[block][i].value);
          HoldsRemoved(c.blocks[block], c.id, block, contents, i);
          Rewrite(c, key, c.blocks[block][..i] + c.blocks[block][i + 1..], contents - {key});
          return;
        }
      }
      assert key !in contents;
      removed := None;
    }

    // ---- The range an address points into ----

    /** Scans a block's list for the range of a key. Without one, tells whether some entry
        lies before the key. */
    static method Scan(list: seq<Entry<V>>, size: V -> nat, key: Address) returns (i: int, smaller: bool)
      requires forall j | 0 <= j < |list| :: list[j].key + size(list[j].value) < ADDRESSES
      ensures i != -1 ==> 0 <= i < |list| && Inside(list[i].key, size(list[i].value), key)
      ensures i == -1 ==> forall j | 0 <= j < |list| :: !Inside(list[j].key, size(list[j].value), key)
      ensures i == -1 ==> (smaller <==> exists j :: 0 <= j < |list| && list[j].key <= key)
    {
      smaller := false;
      i := 0;
      while i < |list|
        invariant 0 <= i <= |list|
        invariant forall j | 0 <= j < i :: !Inside(list[j].key, size(list[j].value), key)
        invariant smaller <==> exists j :: 0 <= j < i && list[j].key <= key
      {
        var e := list[i];
        if e.key <= key {
          if e.key == key || key < (e.key + size(e.value)) % ADDRESSES {
            return;
          }
          smaller := true;
        }
        i := i + 1;
      }
      i := -1;
    }

    /** Walks back block by block, over the clusters there are, from the key's block. The
        walk finds the range the key points into exactly when that range starts in the
        key's block or in a block that ends at most maxSize before the key. */
    method FindInside(size: V -> nat, maxSize: nat, key: Address) returns (r: Option<(Address, V)>)
      requires Valid() && Ranges(contents, size)
      ensures r.Some? ==>
        var a := r.value.0;
        a in contents && contents[a] == r.value.1 && Inside(a, size(contents[a]), key) && Near(a, key, maxSize)
      ensures r.None? ==> forall a | a in contents && Inside(a, size(contents[a]), key) :: !Near(a, key, maxSize)
      // With a bound on all sizes nothing is missed.
      ensures Bounded(contents, size, maxSize) && r.None? ==> forall a | a in contents :: !Inside(a, size(contents[a]), key)
    {
      hide Holds, ClusterId, BlockId, BlockNumber, HashInt, Near, Below, Ranges, Inside, Bounded, Reached;
      if Bounded(contents, size, maxSize) {
        BoundedNear(contents, size, key, maxSize);
      }
      r := None;
      var num := key;
      BelowStart(contents, size, key, maxSize);
      while true
        invariant 0 <= num <= key && Below(contents, size, key, BlockNumber(num) + 1) && Reached(num, key, maxSize)
        decreases num
      {
        ghost var first := num;
        var c := FindCluster(num);
        if c == null {
          NoCluster(num, size, key);
        } else {
          while true
            invariant 0 <= num <= first && ClusterId(num) == ClusterId(first)
            invariant Below(contents, size, key, BlockNumber(num) + 1) && Reached(num, key, maxSize)
            decreases num
          {
            var block := BlockId(num);
            var list := c.blocks[block];
            EntriesFit(contents, size, list, c.id, block);
            var i, smaller := Scan(list, size, key);
            if i != -1 {
              ReachedNear(list[i].key, num, key, maxSize);
              return Some((list[i].key, list[i].value));
            }
            ScanEmpty(contents, size, list, num, key);
            if smaller {
              NoneBelow(contents, size, key);
              return;
            }
            if block == 0 {
              break;
            }
            BlockBack(num);
            num := num / BLOCK_SIZE * BLOCK_SIZE + (BLOCK_SIZE - 1) - BLOCK_SIZE;
            if key - num > maxSize {
              NoneNear(contents, size, key, maxSize, num);
              return;
            }
            ReachedEnd(num, key, maxSize);
          }
        }
        ClusterBack(num);
        if num < CLUSTER_SIZE {
          NoneBelow(contents, size, key);
          return;
        }
        num := num / CLUSTER_SIZE * CLUSTER_SIZE + (CLUSTER_SIZE - 1) - CLUSTER_SIZE;
        if key - num > maxSize {
          NoneNear(contents, size, key, maxSize, num);
          return;
        }
        ReachedEnd(num, key, maxSize);
      }
    }

    lemma NoCluster(num: Address, size: V -> nat, key: Address)
      requires Valid() && Ranges(contents, size) && ClusterId(num) !in clusters && Below(contents, size, key, BlockNumber(num) + 1)
      ensures Below(contents, size, key, CLUSTER_BLOCKS * ClusterId(num))
    {
      forall a | a in contents && Inside(a, size(contents[a]), key) ensures BlockNumber(a) < CLUSTER_BLOCKS * ClusterId(num) {
        BlockOrder(a, num);
      }
    }
  }
}
