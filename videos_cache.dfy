/**
 * The videos cache of the front end (`VideosIndexedDBCache`): pages of the
 * synced YouTube videos, kept for ten minutes by default and invalidated
 * all together.
 */
module VideosCache {
  import opened Wrappers
  import opened Strings
  import opened TtlCache

  /** Default time to live of `set`: ten minutes. */
  const DEFAULT_TTL: int := 600000

  /**
   * `generateVideosKey({page = 0, size = 10})`: the prefix `videos_` and the
   * `_`-separated page and size; videos pages do not depend on the language.
   * Every key is removed by `invalidateVideosCache`.
   */
  function GenerateVideosKey(page: int := 0, size: int := 10): (r: string)
    ensures r == "videos_" + (IntToString(page) + "_" + IntToString(size))
    ensures VideosInvalidationMatches(r)
  {
    StartsWithJoin("videos_", IntToString(page) + "_" + IntToString(size));
    "videos_" + IntToString(page) + "_" + IntToString(size)
  }

  /** The filter of `invalidateVideosCache()`: it never selects a key of the images or posts caches. */
  predicate VideosInvalidationMatches(key: string)
    ensures StartsWith(key, "images_") || StartsWith(key, "posts") ==> !VideosInvalidationMatches(key)
  {
    StartsWithFirstChar(key, "images_");
    StartsWithFirstChar(key, "posts");
    StartsWithFirstChar(key, "videos_");
    StartsWith(key, "videos_")
  }

  class VideosIndexedDBCache<D> {
    /** The `videos` object store of the `DaklakVideosDB` database. */
    var entries: map<string, Entry<D>>

    /** Opens the store with the records it already holds. */
    constructor (stored: map<string, Entry<D>>)
      ensures entries == stored
    {
      entries := stored;
    }

    /** `get(key)`: the data of a valid record, otherwise null; expired records stay in the store. */
    method Get(key: string, now: int) returns (r: Option<D>)
      ensures r == Lookup(entries, key, now)
    {
      var result := Stored(entries, key);
      if result.Some? && IsCacheValid(result, now) {
        r := Some(result.value.data);
      } else {
        r := None;
      }
    }

    /** `set(key, data, ttl)`: overwrites the record under `key`, stamped with the current time. */
    method Set(key: string, data: D, now: int, ttl: int := DEFAULT_TTL)
      modifies this
      ensures entries == old(entries)[key := Written(data, ttl, now)]
    {
      entries := entries[key := Entry(data, Some(now), Some(ttl))];
    }

    /** `delete(key)`: removes that record only. */
    method Delete(key: string)
      modifies this
      ensures entries == old(entries) - {key}
    {
      entries := entries - {key};
    }

    /** `clear()`: empties the store. */
    method Clear()
      modifies this
      ensures entries == map[]
    {
      entries := map[];
    }

    /** `invalidateVideosCache()`: deletes, one by one, exactly the `videos_` keys. */
    method InvalidateVideosCache()
      modifies this
      ensures forall k :: k in entries <==> k in old(entries) && !VideosInvalidationMatches(k)
      ensures forall k :: k in entries ==> entries[k] == old(entries)[k]
    {
      var items := entries.Keys;
      var itemsToDelete := set k | k in items && VideosInvalidationMatches(k);
      var pending := itemsToDelete;
      while pending != {}
        invariant pending <= itemsToDelete
        invariant entries == old(entries) - (itemsToDelete - pending)
        decreases pending
      {
        var k :| k in pending;
        Delete(k);
        pending := pending - {k};
      }
    }
  }

  /** The first page of ten videos is cached under `videos_0_10`. */
  lemma DefaultVideosKey()
    ensures GenerateVideosKey() == "videos_0_10"
  {
  }

  /** Different pages never share a key. */
  lemma VideosKeyInjective(p1: int, s1: int, p2: int, s2: int)
    requires GenerateVideosKey(p1, s1) == GenerateVideosKey(p2, s2)
    ensures p1 == p2 && s1 == s2
  {
    var n1, n2 := IntToString(p1), IntToString(p2);
    var m1, m2 := IntToString(s1), IntToString(s2);
    StripPrefix("videos_", n1 + "_" + m1, n2 + "_" + m2);
    IntToStringPlain(p1);
    IntToStringPlain(p2);
    SplitAtSeparator(n1, m1, n2, m2, '_');
    IntToStringInjective(p1, p2);
    IntToStringInjective(s1, s2);
  }
}
