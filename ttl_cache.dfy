/**
 * The record layout and the lazy-expiry rule shared by the three IndexedDB
 * caches of the front end (posts, images, videos). Each cache keeps records
 * `{key, data, timestamp, ttl}` in one object store keyed by `key`; here a
 * store is a map from the key to the rest of the record, and the clock
 * (`Date.now()`) is an explicit `now` argument in milliseconds.
 */
module TtlCache {
  import opened Wrappers

  /** A stored record; `timestamp` and `ttl` may be missing from records written by older code. */
  datatype Entry<D> = Entry(data: D, timestamp: Option<int>, ttl: Option<int>)

  /** A JavaScript number field that is present and not zero, i.e. truthy. */
  predicate Truthy(v: Option<int>) {
    v.Some? && v.value != 0
  }

  /**
   * `isCacheValid`: the item exists, has a truthy timestamp and ttl, and is
   * read strictly before it expires; a record read at or after its write
   * time with a non-positive ttl is never valid.
   */
  predicate IsCacheValid<D>(item: Option<Entry<D>>, now: int)
    ensures IsCacheValid(item, now) ==> item.Some? && item.value.timestamp.Some? && item.value.ttl.Some?
    ensures IsCacheValid(item, now) ==> now < item.value.timestamp.value + item.value.ttl.value
    ensures item.Some? && item.value.timestamp.Some? && item.value.ttl.Some? ==>
              item.value.timestamp.value <= now && item.value.ttl.value <= 0 ==> !IsCacheValid(item, now)
  {
    && item.Some?
    && Truthy(item.value.timestamp)
    && Truthy(item.value.ttl)
    && now - item.value.timestamp.value < item.value.ttl.value
  }

  /** The record `store.get(key)` yields, if any. */
  function Stored<D>(entries: map<string, Entry<D>>, key: string): Option<Entry<D>> {
    if key in entries then Some(entries[key]) else None
  }

  /** What `get(key)` resolves with at time `now`: the data of a valid record, otherwise null. */
  function Lookup<D>(entries: map<string, Entry<D>>, key: string, now: int): (r: Option<D>)
    ensures r.Some? <==> key in entries && IsCacheValid(Some(entries[key]), now)
    ensures r.Some? ==> r.value == entries[key].data
  {
    if IsCacheValid(Stored(entries, key), now) then Some(entries[key].data) else None
  }

  /** The record `set(key, data, ttl)` puts at time `now`. */
  function Written<D>(data: D, ttl: int, now: int): Entry<D> {
    Entry(data, Some(now), Some(ttl))
  }

  /** The store after deleting every key that `matches` selects (the bulk invalidations). */
  function RemoveWhere<D>(entries: map<string, Entry<D>>, matches: string -> bool): (r: map<string, Entry<D>>)
    ensures forall k :: k in r <==> k in entries && !matches(k)
    ensures forall k :: k in r ==> r[k] == entries[k]
  {
    map k | k in entries && !matches(k) :: entries[k]
  }

  /**
   * TTL boundary: data written at a non-zero time `written` with a non-zero
   * `ttl` is returned by a later `get` exactly while `now - written < ttl`.
   */
  lemma LookupAfterSet<D>(entries: map<string, Entry<D>>, key: string, data: D, ttl: int, written: int, now: int)
    ensures Lookup(entries[key := Written(data, ttl, written)], key, now)
         == if written != 0 && ttl != 0 && now - written < ttl then Some(data) else None
  {
  }

  /** `set` on one key does not change what `get` returns for any other key. */
  lemma LookupOtherKeyAfterSet<D>(entries: map<string, Entry<D>>, key: string, other: string, data: D, ttl: int, written: int, now: int)
    requires other != key
    ensures Lookup(entries[key := Written(data, ttl, written)], other, now) == Lookup(entries, other, now)
  {
  }

  /** Lazy expiry is final: once `get` misses on a record, it misses at every later time too. */
  lemma ExpiredStaysExpired<D>(entries: map<string, Entry<D>>, key: string, now: int, later: int)
    requires now <= later
    requires key in entries && Lookup(entries, key, now) == None
    ensures Lookup(entries, key, later) == None
  {
  }
}
