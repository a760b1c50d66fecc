/** The two-level cache adapter: a local level L1 (Caffeine) in front of a
    shared level L2 (Redis). `CacheState` and the `Cache...` functions are
    the value model; `MultiLevelCache` is the adapter object, whose methods
    are tied to those functions. */
module Cache {
  import opened Common

  /** `hasL1` is false when the cache manager has no L1 cache to hand out; L1
      is then always empty. */
  datatype CacheState = CacheState(hasL1: bool, l1: map<string, string>, l2: map<string, string>)

  ghost predicate Wf(c: CacheState) {
    !c.hasL1 ==> c.l1 == map[]
  }

  /** The value a read of `key` sees: L1 first, then L2. */
  function Lookup(c: CacheState, key: string): Option<string> {
    if c.hasL1 && key in c.l1 then Some(c.l1[key])
    else if key in c.l2 then Some(c.l2[key])
    else None
  }

  /** `get`: an L1 hit is returned as is; an L2 hit is copied into L1
      (promotion) and returned; a miss on both returns null. */
  function CacheGet(c: CacheState, key: string): (Option<string>, CacheState) {
    if c.hasL1 && key in c.l1 then (Some(c.l1[key]), c)
    else if key in c.l2 then
      (Some(c.l2[key]), if c.hasL1 then c.(l1 := c.l1[key := c.l2[key]]) else c)
    else (None, c)
  }

  /** `put`: writes both levels. */
  function CachePut(c: CacheState, key: string, value: string): CacheState {
    c.(l1 := if c.hasL1 then c.l1[key := value] else c.l1, l2 := c.l2[key := value])
  }

  /** `evict`: removes the key from both levels. */
  function CacheEvict(c: CacheState, key: string): CacheState {
    c.(l1 := c.l1 - {key}, l2 := c.l2 - {key})
  }

  /** `clear`: empties L1 only; the Redis branch only logs a warning. */
  function CacheClear(c: CacheState): CacheState {
    c.(l1 := map[])
  }

  /** `containsKey`: L1, then L2; no promotion. */
  function CacheContains(c: CacheState, key: string): bool {
    (c.hasL1 && key in c.l1) || key in c.l2
  }

  /** L1 dropping an entry on its own (size bound or expiry). */
  function CacheDropLocal(c: CacheState, key: string): CacheState {
    c.(l1 := c.l1 - {key})
  }

  /** Every L1 entry agrees with L2. */
  ghost predicate Coherent(c: CacheState) {
    forall k :: k in c.l1 ==> k in c.l2 && c.l1[k] == c.l2[k]
  }

  /** `get` returns what `Lookup` sees, and its promotion changes nothing any
      later read can see. */
  lemma GetIsLookup(c: CacheState, key: string)
    ensures CacheGet(c, key).0 == Lookup(c, key)
    ensures forall k :: Lookup(CacheGet(c, key).1, k) == Lookup(c, k)
    ensures CacheGet(c, key).1.l2 == c.l2 && CacheGet(c, key).1.hasL1 == c.hasL1
    ensures c.l1.Keys <= CacheGet(c, key).1.l1.Keys
    ensures forall k :: k in c.l1 ==> CacheGet(c, key).1.l1[k] == c.l1[k]
    ensures forall k :: k in CacheGet(c, key).1.l1 && k !in c.l1 ==> k in c.l2 && CacheGet(c, key).1.l1[k] == c.l2[k]
  {
  }

  /** An L1 hit reads nothing else and changes nothing. */
  lemma L1HitLeavesState(c: CacheState, key: string)
    requires c.hasL1 && key in c.l1
    ensures CacheGet(c, key) == (Some(c.l1[key]), c)
  {
  }

  /** An L2 hit after an L1 miss is promoted, so the next `get` is an L1 hit. */
  lemma L2HitPromotes(c: CacheState, key: string)
    requires c.hasL1 && key !in c.l1 && key in c.l2
    ensures CacheGet(c, key).0 == Some(c.l2[key])
    ensures CacheGet(c, key).1 == c.(l1 := c.l1[key := c.l2[key]])
    ensures var c' := CacheGet(c, key).1; key in c'.l1 && CacheGet(c', key) == (Some(c.l2[key]), c')
  {
  }

  /** A miss on both levels returns null and changes nothing. */
  lemma MissLeavesState(c: CacheState, key: string)
    requires Wf(c) && key !in c.l1 && key !in c.l2
    ensures CacheGet(c, key) == (None, c)
  {
  }

  /** A `get` right after `put(key, value)` returns `value`; other keys read
      as before. */
  lemma GetAfterPut(c: CacheState, key: string, value: string)
    ensures CacheGet(CachePut(c, key, value), key).0 == Some(value)
    ensures forall k :: k != key ==> Lookup(CachePut(c, key, value), k) == Lookup(c, k)
  {
  }

  /** A `get` right after `evict(key)` misses; other keys read as before. */
  lemma GetAfterEvict(c: CacheState, key: string)
    ensures CacheGet(CacheEvict(c, key), key).0 == None
    ensures forall k :: k != key ==> Lookup(CacheEvict(c, key), k) == Lookup(c, k)
  {
  }

  /** After `clear`, reads are served by L2 alone, which is untouched. */
  lemma GetAfterClear(c: CacheState, key: string)
    ensures CacheClear(c).l2 == c.l2 && CacheClear(c).l1 == map[]
    ensures CacheGet(CacheClear(c), key).0 == if key in c.l2 then Some(c.l2[key]) else None
  {
  }

  /** `containsKey` holds exactly when some level holds the key, which is
      exactly when `get` would return a value. */
  lemma ContainsIffFound(c: CacheState, key: string)
    requires Wf(c)
    ensures CacheContains(c, key) <==> key in c.l1 || key in c.l2
    ensures CacheContains(c, key) <==> CacheGet(c, key).0.Some?
  {
  }

  /** Without an L1 cache every operation acts on L2 alone. */
  lemma NoL1ActsOnL2(c: CacheState, key: string, value: string)
    requires !c.hasL1 && Wf(c)
    ensures CacheGet(c, key) == (if key in c.l2 then Some(c.l2[key]) else None, c)
    ensures CachePut(c, key, value) == c.(l2 := c.l2[key := value])
    ensures CacheEvict(c, key) == c.(l2 := c.l2 - {key})
    ensures CacheClear(c) == c
    ensures CacheContains(c, key) == (key in c.l2)
  {
  }

  /** Every operation keeps L1 a sub-map of L2. */
  lemma OperationsKeepCoherence(c: CacheState, key: string, value: string)
    requires Wf(c) && Coherent(c)
    ensures Coherent(CacheGet(c, key).1)
    ensures Coherent(CachePut(c, key, value))
    ensures Coherent(CacheEvict(c, key))
    ensures Coherent(CacheClear(c))
    ensures Coherent(CacheDropLocal(c, key))
  {
  }

  /** While L1 agrees with L2, what a read sees is just L2. */
  lemma CoherentLookupIsL2(c: CacheState, key: string)
    requires Coherent(c)
    ensures Lookup(c, key) == if key in c.l2 then Some(c.l2[key]) else None
  {
  }

  /** The adapter object: the two stores are fields the methods reassign. */
  class MultiLevelCache {
    const hasL1: bool
    var l1: map<string, string>
    var l2: map<string, string>

    ghost predicate Valid()
      reads this
    {
      Wf(State())
    }

    function State(): CacheState
      reads this
    {
      CacheState(hasL1, l1, l2)
    }

    /** An adapter over an empty L1 and a given L2 content. */
    constructor (hasL1: bool, shared: map<string, string>)
      ensures Valid() && State() == CacheState(hasL1, map[], shared)
    {
      this.hasL1 := hasL1;
      l1 := map[];
      l2 := shared;
    }

    method Get(key: string) returns (value: Option<string>)
      requires Valid()
      modifies this
      ensures Valid()
      ensures (value, State()) == CacheGet(old(State()), key)
    {
      if hasL1 && key in l1 {
        return Some(l1[key]);
      }
      if key in l2 {
        value := Some(l2[key]);
        if hasL1 {
          l1 := l1[key := l2[key]];
        }
        return;
      }
      return None;
    }

    method Put(key: string, value: string)
      requires Valid()
      modifies this
      ensures Valid() && State() == CachePut(old(State()), key, value)
    {
      if hasL1 {
        l1 := l1[key := value];
      }
      l2 := l2[key := value];
    }

    method Evict(key: string)
      requires Valid()
      modifies this
      ensures Valid() && State() == CacheEvict(old(State()), key)
    {
      if hasL1 {
        l1 := l1 - {key};
      }
      l2 := l2 - {key};
    }

    method Clear()
      requires Valid()
      modifies this
      ensures Valid() && State() == CacheClear(old(State()))
    {
      if hasL1 {
        l1 := map[];
      }
    }

    method ContainsKey(key: string) returns (found: bool)
      requires Valid()
      ensures found == CacheContains(State(), key)
      ensures found <==> key in l1 || key in l2
    {
      if hasL1 && key in l1 {
        return true;
      }
      return key in l2;
    }

    /** L1 loses an entry on its own (size bound or expiry). */
    method DropLocal(key: string)
      requires Valid()
      modifies this
      ensures Valid() && State() == CacheDropLocal(old(State()), key)
    {
      l1 := l1 - {key};
    }
  }
}
