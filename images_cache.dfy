/**
 * The images cache of the front end (`ImagesIndexedDBCache`): pages of the
 * image library keyed by ethnic group, page and page size, kept for ten
 * minutes by default, and invalidated per ethnic group after an upload,
 * edit or deletion.
 */
module ImagesCache {
  import opened Wrappers
  import opened Strings
  import opened TtlCache

  /** Default time to live of `set`: ten minutes. */
  const DEFAULT_TTL: int := 10 * 60 * 1000

  /** `ethnic || 'ALL'`: a missing or empty ethnic group stands for all groups. */
  function EthnicOrAll(ethnic: Option<string>): string {
    if ethnic.None? || ethnic.value == "" then "ALL" else ethnic.value
  }

  /**
   * `generateImagesKey({ethnic, page = 0, size = 10})`: the prefix `images_`
   * and the `_`-separated group, page and size. Every key is removed by the
   * invalidation of all groups and by that of its own group.
   */
  function GenerateImagesKey(ethnic: Option<string> := None, page: int := 0, size: int := 10): (r: string)
    ensures r == "images_" + (EthnicOrAll(ethnic) + "_" + (IntToString(page) + "_" + IntToString(size)))
    ensures InvalidationMatches(None, r)
    ensures ethnic.Some? && ethnic.value != "" ==> InvalidationMatches(ethnic, r)
  {
    var rest := IntToString(page) + "_" + IntToString(size);
    StartsWithJoin("images_", EthnicOrAll(ethnic) + "_" + rest);
    OpensWithPattern("images_", EthnicOrAll(ethnic), "_", rest);
    "images_" + EthnicOrAll(ethnic) + "_" + IntToString(page) + "_" + IntToString(size)
  }

  /** The filter of `invalidateImagesCache(ethnic)`: it never selects a key outside the images prefix. */
  predicate InvalidationMatches(ethnic: Option<string>, key: string)
    ensures InvalidationMatches(ethnic, key) ==> StartsWith(key, "images_")
  {
    if ethnic.Some? && ethnic.value != "" then
      StartsWith(key, "images_") && Contains(key, "images_" + ethnic.value + "_")
    else
      StartsWith(key, "images_")
  }

  /** The codes of ethnic groups: non-empty runs of upper-case ASCII letters (EDE, JRAI, MNONG, ALL). */
  predicate IsEthnicCode(e: string) {
    e != [] && forall i :: 0 <= i < |e| ==> IsAsciiUpper(e[i])
  }

  class ImagesIndexedDBCache<D> {
    /** The `images` object store of the `DaklakImagesDB` database. */
    var entries: map<string, Entry<D>>

    /** Opens the store with the records it already holds. */
    constructor (stored: map<string, Entry<D>>)
      ensures entries == stored
    {
      entries := stored;
    }

    /** `get(key)`: the data of a valid record, otherwise null; expired records stay in the store. */
    method Get(key: string, now: int) returns (r: Option<D>)
      ensures r == Lookup(entries, key, now)
    {
      var result := Stored(entries, key);
      if result.Some? && IsCacheValid(result, now) {
        r := Some(result.value.data);
      } else {
        r := None;
      }
    }

    /** `set(key, data, ttl)`: overwrites the record under `key`, stamped with the current time. */
    method Set(key: string, data: D, now: int, ttl: int := DEFAULT_TTL)
      modifies this
      ensures entries == old(entries)[key := Written(data, ttl, now)]
    {
      entries := entries[key := Entry(data, Some(now), Some(ttl))];
    }

    /** `delete(key)`: removes that record only; deleting a missing key changes nothing. */
    method Delete(key: string)
      modifies this
      ensures entries == old(entries) - {key}
    {
      entries := entries - {key};
    }

    /** `clear()`: empties the store. */
    method Clear()
      modifies this
      ensures entries == map[]
    {
      entries := map[];
    }

    /**
     * `invalidateImagesCache(ethnic)`: reads every record, keeps the keys the
     * filter selects, and deletes them one by one; every other record is kept
     * as it was.
     */
    method InvalidateImagesCache(ethnic: Option<string> := None)
      modifies this
      ensures forall k :: k in entries <==> k in old(entries) && !InvalidationMatches(ethnic, k)
      ensures forall k :: k in entries ==> entries[k] == old(entries)[k]
    {
      var items := entries.Keys;
      var itemsToDelete := set k | k in items && InvalidationMatches(ethnic, k);
      var pending := itemsToDelete;
      while pending != {}
        invariant pending <= itemsToDelete
        invariant entries == old(entries) - (itemsToDelete - pending)
        decreases pending
      {
        var k :| k in pending;
        Delete(k);
        pending := pending - {k};
      }
    }
  }

  /** The default key is that of the first page of ten images of all groups. */
  lemma DefaultImagesKey()
    ensures GenerateImagesKey() == "images_ALL_0_10"
  {
  }

  /** Different queries never share a key, as long as the ethnic group holds no `_`. */
  lemma ImagesKeyInjective(e1: Option<string>, p1: int, s1: int, e2: Option<string>, p2: int, s2: int)
    requires '_' !in EthnicOrAll(e1) && '_' !in EthnicOrAll(e2)
    requires GenerateImagesKey(e1, p1, s1) == GenerateImagesKey(e2, p2, s2)
    ensures EthnicOrAll(e1) == EthnicOrAll(e2) && p1 == p2 && s1 == s2
  {
    var a1, a2 := EthnicOrAll(e1), EthnicOrAll(e2);
    var n1, n2 := IntToString(p1), IntToString(p2);
    var r1, r2 := n1 + "_" + IntToString(s1), n2 + "_" + IntToString(s2);
    StripPrefix("images_", a1 + "_" + r1, a2 + "_" + r2);
    SplitAtSeparator(a1, r1, a2, r2, '_');
    IntToStringPlain(p1);
    IntToStringPlain(p2);
    SplitAtSeparator(n1, IntToString(s1), n2, IntToString(s2), '_');
    IntToStringInjective(p1, p2);
    IntToStringInjective(s1, s2);
  }

  /** An ethnic code holds no lower-case `i`. */
  lemma CodeLacksLetterI(e: string)
    requires IsEthnicCode(e)
    ensures 'i' !in e
  {
  }

  /** In a key of an ethnic code, the letter `i` appears only at the start. */
  lemma ImagesKeyLetterI(e: string, page: int, size: int)
    requires IsEthnicCode(e)
    ensures forall m :: 0 <= m < |GenerateImagesKey(Some(e), page, size)| && GenerateImagesKey(Some(e), page, size)[m] == 'i' ==> m == 0
  {
    var key := GenerateImagesKey(Some(e), page, size);
    var rest := IntToString(page) + "_" + IntToString(size);
    var tail := e + "_" + rest;
    assert key == "images_" + tail;
    IntToStringPlain(page);
    IntToStringPlain(size);
    CodeLacksLetterI(e);
    assert 'i' !in rest;
    assert 'i' !in tail;
    CharOnlyInPrefix("images_", tail, 'i');
  }

  /** For ethnic codes, invalidating group `e1` leaves the cached pages of every other group. */
  lemma InvalidationSparesOtherGroups(e1: string, e2: string, page: int, size: int)
    requires IsEthnicCode(e1) && IsEthnicCode(e2)
    requires InvalidationMatches(Some(e1), GenerateImagesKey(Some(e2), page, size))
    ensures e1 == e2
  {
    var key := GenerateImagesKey(Some(e2), page, size);
    var rest := IntToString(page) + "_" + IntToString(size);
    InvalidationPatternAtStart(e1, e2, page, size);
    assert '_' !in e1 && '_' !in e2;
    SameFieldAtStart(key, "images_", e2, e1, rest, '_');
  }

  /** For ethnic codes, the invalidation pattern can match a key only at its start. */
  lemma InvalidationPatternAtStart(e1: string, e2: string, page: int, size: int)
    requires IsEthnicCode(e1) && IsEthnicCode(e2)
    requires InvalidationMatches(Some(e1), GenerateImagesKey(Some(e2), page, size))
    ensures OccursAt(GenerateImagesKey(Some(e2), page, size), "images_" + e1 + "_", 0)
  {
    var key := GenerateImagesKey(Some(e2), page, size);
    var pattern := "images_" + e1 + "_";
    ImagesKeyLetterI(e2, page, size);
    ContainedOnlyAtStart(key, pattern, 0, 'i');
  }

  /**
   * Invalidation scope: for ethnic codes, invalidating group `e1` removes the
   * cached pages of group `e2` exactly when `e1 == e2`.
   */
  lemma ImagesInvalidationScope(e1: string, e2: string, page: int, size: int)
    requires IsEthnicCode(e1) && IsEthnicCode(e2)
    ensures InvalidationMatches(Some(e1), GenerateImagesKey(Some(e2), page, size)) <==> e1 == e2
  {
    if InvalidationMatches(Some(e1), GenerateImagesKey(Some(e2), page, size)) {
      InvalidationSparesOtherGroups(e1, e2, page, size);
    }
  }
}
