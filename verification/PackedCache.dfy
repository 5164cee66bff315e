/** The page-to-size-class cache: a direct-mapped table whose entries pack the upper bits
    of a key with a small value. */
module PackedCache {
  import opened Words

  const HASH_MASK: Word := 0xFFFF
  const VALUE_LIMIT: Word := 0x80
  const INVALID_MASK: Word := 0x80

  datatype Hit = Miss | Hit(value: Word)

  function Hash(key: Word): Word { key & HASH_MASK }

  /** The key with its hash bits cleared. */
  function KeyToUpper(key: Word): Word { key ^ Hash(key) }

  function Pack(key: Word, low: Word): Word { KeyToUpper(key) | low }

  /** What an entry says about a key. */
  function Probe(entry: Word, key: Word): Hit
  {
    var e := entry ^ (key & !HASH_MASK);
    if e >= VALUE_LIMIT then Miss else Hit(e)
  }

  lemma ProbePacked(key: Word, value: Word)
    requires value < VALUE_LIMIT
    ensures Probe(Pack(key, value), key) == Hit(value)
  {
  }

  /** An entry never answers for another key of the same slot. */
  lemma ProbeOther(key: Word, low: Word, other: Word)
    requires low <= INVALID_MASK && other != key && Hash(other) == Hash(key)
    ensures Probe(Pack(key, low), other) == Miss
  {
    assert KeyToUpper(other) != KeyToUpper(key);
  }

  lemma ProbeInvalid(key: Word)
    ensures Probe(Pack(key, INVALID_MASK), key) == Miss
  {
  }

  class Cache {
    /** The entries by slot. */
    var table: Word -> Word

    function TryGet(key: Word): Hit
      reads this
    {
      Probe(table(Hash(key)), key)
    }

    constructor ()
      ensures forall k :: TryGet(k) == Miss
    {
      table := k => 0x8080_8080_8080_8080;
      new;
      CleanMisses();
    }

    method Clear()
      modifies this
      ensures forall k :: TryGet(k) == Miss
    {
      table := k => 0x8080_8080_8080_8080;
      CleanMisses();
    }

    static lemma CleanMisses()
      ensures forall k :: Probe(0x8080_8080_8080_8080, k) == Miss
    {
      forall k ensures Probe(0x8080_8080_8080_8080, k) == Miss {}
    }

    /** Afterwards the key hits with its value, every other key of the slot misses, and
        the rest of the cache is as before. */
    method Put(key: Word, value: Word)
      requires value < VALUE_LIMIT
      modifies this
      ensures forall k :: TryGet(k) == if k == key then Hit(value) else if Hash(k) == Hash(key) then Miss else old(TryGet(k))
    {
      var before, slot, entry := table, Hash(key), Pack(key, value);
      table := k => if k == slot then entry else before(k);
      ProbePacked(key, value);
      forall k | k != key && Hash(k) == Hash(key) ensures TryGet(k) == Miss {
        ProbeOther(key, value, k);
      }
    }

    /** Afterwards every key of the slot misses and the rest of the cache is as before. */
    method Invalidate(key: Word)
      modifies this
      ensures forall k :: TryGet(k) == if Hash(k) == Hash(key) then Miss else old(TryGet(k))
    {
      var before, slot, entry := table, Hash(key), Pack(key, INVALID_MASK);
      table := k => if k == slot then entry else before(k);
      ProbeInvalid(key);
      forall k | k != key && Hash(k) == Hash(key) ensures TryGet(k) == Miss {
        ProbeOther(key, INVALID_MASK, k);
      }
    }
  }
}
