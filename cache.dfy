/** The caches of the orchestrator: a map-backed store, or a disabled store
    that always misses. Entry expiry and cleanup sweeps are not modelled: an
    entry stays until it is overwritten. */
module Caches {
  import opened Wrappers

  /** `dummyCache`, or `memCache` with its expiration and cleanup interval
      (nanoseconds). */
  datatype CacheKind = Dummy | Memory(expiration: int, cleanupInterval: int)

  class Cache<V> {
    const kind: CacheKind
    /** The entries of the underlying store. */
    var store: map<string, V>

    /** A disabled store never holds anything. */
    ghost predicate Valid()
      reads this
    {
      kind.Dummy? ==> store == map[]
    }

    /** `NewCache(enabled, expiration, cleanupInterval)`: an empty memory store,
        or the dummy store when caching is disabled. */
    constructor (enabled: bool, expiration: int, cleanupInterval: int)
      ensures kind == if enabled then Memory(expiration, cleanupInterval) else Dummy
      ensures store == map[]
      ensures Valid()
    {
      kind := if enabled then Memory(expiration, cleanupInterval) else Dummy;
      store := map[];
    }

    /** What `Get(key)` answers in the current state. */
    function Lookup(key: string): (r: Option<V>)
      reads this
      ensures kind.Dummy? ==> r == None
      ensures r.Some? <==> kind.Memory? && key in store
      ensures r.Some? ==> r.value == store[key]
    {
      if kind.Memory? && key in store then Some(store[key]) else None
    }

    /** The store after `Set(key, value)`. */
    function Put(key: string, value: V): map<string, V>
      reads this
    {
      if kind.Memory? then store[key := value] else store
    }

    /** `Get(key)`: `(value, true)` on a hit, `(nil, false)` on a miss. */
    method Get(key: string) returns (value: Option<V>)
      ensures value == Lookup(key)
    {
      if kind.Dummy? {
        return None;
      }
      if key in store {
        return Some(store[key]);
      }
      return None;
    }

    /** `Set(key, value)`: a memory store maps `key` to `value` and keeps every
        other entry; the dummy store ignores the call. It cannot fail. */
    method Set(key: string, value: V)
      requires Valid()
      modifies this
      ensures Valid()
      ensures store == old(Put(key, value))
      ensures kind.Memory? ==> Lookup(key) == Some(value)
      ensures kind.Dummy? ==> Lookup(key) == None
      ensures forall k :: k != key ==> Lookup(k) == old(Lookup(k))
    {
      if kind.Memory? {
        store := store[key := value];
      }
    }
  }
}
