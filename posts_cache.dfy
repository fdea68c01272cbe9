/**
 * The posts cache of the front end (`PostsIndexedDBCache`): pages of posts
 * and of posts by category, kept for five minutes by default; all of them
 * are invalidated after a post is created, edited or deleted, or only those
 * of one category.
 */
module PostsCache {
  import opened Wrappers
  import opened Strings
  import opened TtlCache

  /** Default time to live of `set`: five minutes. */
  const DEFAULT_TTL: int := 5 * 60 * 1000

  /** `language || 'vi'`: Vietnamese unless a non-empty language is given. */
  function LanguageOrVi(language: Option<string>): string {
    if language.None? || language.value == "" then "vi" else language.value
  }

  /** A template-string field: a missing value is written `undefined`. */
  function Interpolate(value: Option<string>): string {
    if value.None? then "undefined" else value.value
  }

  /**
   * `generatePostsKey({page = 0, size = 5, q = '', language})`: the prefix
   * `posts_` and the `_`-separated page, size, search text and language.
   * Every key is removed by `invalidatePostsCache`.
   */
  function GeneratePostsKey(page: int := 0, size: int := 5, q: string := "", language: Option<string> := None): (r: string)
    ensures r == "posts_" + (IntToString(page) + "_" + (IntToString(size) + "_" + (q + "_" + LanguageOrVi(language))))
    ensures PostsInvalidationMatches(r)
  {
    StartsWithJoin("posts_", IntToString(page) + "_" + (IntToString(size) + "_" + (q + "_" + LanguageOrVi(language))));
    "posts_" + IntToString(page) + "_" + IntToString(size) + "_" + q + "_" + LanguageOrVi(language)
  }

  /**
   * `generatePostsByCategoryKey({page = 0, size = 10, category, language})`:
   * the prefix `postsByCategory_` and the `_`-separated category, page, size
   * and language. Every key is removed by `invalidatePostsCache` and by the
   * invalidation of its own category.
   */
  function GeneratePostsByCategoryKey(page: int := 0, size: int := 10, category: Option<string> := None, language: Option<string> := None): (r: string)
    ensures r == "postsByCategory_" + (Interpolate(category) + "_" + (IntToString(page) + "_" + IntToString(size) + "_" + LanguageOrVi(language)))
    ensures PostsInvalidationMatches(r)
    ensures CategoryInvalidationMatches(category, r)
  {
    var rest := IntToString(page) + "_" + IntToString(size) + "_" + LanguageOrVi(language);
    StartsWithJoin("postsByCategory_", Interpolate(category) + "_" + rest);
    OpensWithPattern("postsByCategory_", Interpolate(category), "_", rest);
    "postsByCategory_" + Interpolate(category) + "_" + IntToString(page) + "_" + IntToString(size) + "_" + LanguageOrVi(language)
  }

  /** The filter of `invalidatePostsCache()`: it never selects a key of the images or videos caches. */
  predicate PostsInvalidationMatches(key: string)
    ensures StartsWith(key, "images_") || StartsWith(key, "videos_") ==> !PostsInvalidationMatches(key)
  {
    StartsWithFirstChar(key, "images_");
    StartsWithFirstChar(key, "videos_");
    StartsWithFirstChar(key, "posts_");
    StartsWithFirstChar(key, "postsByCategory_");
    StartsWith(key, "posts_") || StartsWith(key, "postsByCategory_")
  }

  /** The filter of `invalidateCategoryCache(category)`: it selects only keys that hold `postsByCategory_`. */
  predicate CategoryInvalidationMatches(category: Option<string>, key: string)
    ensures CategoryInvalidationMatches(category, key) ==> Contains(key, "postsByCategory_")
  {
    ContainsPatternPrefix(key, "postsByCategory_", Interpolate(category), "_");
    Contains(key, "postsByCategory_" + Interpolate(category) + "_")
  }

  /** Category names, search texts and languages without `_` and without upper-case letters. */
  predicate IsPlain(s: string) {
    forall i :: 0 <= i < |s| ==> s[i] != '_' && !IsAsciiUpper(s[i])
  }

  class PostsIndexedDBCache<D> {
    /** The `posts` object store of the `DaklakPostsDB` database. */
    var entries: map<string, Entry<D>>

    /** Opens the store with the records it already holds. */
    constructor (stored: map<string, Entry<D>>)
      ensures entries == stored
    {
      entries := stored;
    }

    /** `get(key)`: the data of a valid record, otherwise null; expired records stay in the store. */
    method Get(key: string, now: int) returns (r: Option<D>)
      ensures r == Lookup(entries, key, now)
    {
      var result := Stored(entries, key);
      if result.Some? && IsCacheValid(result, now) {
        r := Some(result.value.data);
      } else {
        r := None;
      }
    }

    /** `set(key, data, ttl)`: overwrites the record under `key`, stamped with the current time. */
    method Set(key: string, data: D, now: int, ttl: int := DEFAULT_TTL)
      modifies this
      ensures entries == old(entries)[key := Written(data, ttl, now)]
    {
      entries := entries[key := Entry(data, Some(now), Some(ttl))];
    }

    /** `delete(key)`: removes that record only. */
    method Delete(key: string)
      modifies this
      ensures entries == old(entries) - {key}
    {
      entries := entries - {key};
    }

    /** `clear()`: empties the store. */
    method Clear()
      modifies this
      ensures entries == map[]
    {
      entries := map[];
    }

    /** Deletes, one by one, the keys `matches` selects among the stored records. */
    method DeleteMatching(matches: string -> bool)
      modifies this
      ensures entries == RemoveWhere(old(entries), matches)
    {
      var items := entries.Keys;
      var itemsToDelete := set k | k in items && matches(k);
      var pending := itemsToDelete;
      while pending != {}
        invariant pending <= itemsToDelete
        invariant entries == old(entries) - (itemsToDelete - pending)
        decreases pending
      {
        var k :| k in pending;
        Delete(k);
        pending := pending - {k};
      }
    }

    /** `invalidatePostsCache()`: deletes exactly the `posts_` and `postsByCategory_` keys. */
    method InvalidatePostsCache()
      modifies this
      ensures forall k :: k in entries <==> k in old(entries) && !PostsInvalidationMatches(k)
      ensures forall k :: k in entries ==> entries[k] == old(entries)[k]
    {
      DeleteMatching(k => PostsInvalidationMatches(k));
    }

    /** `invalidateCategoryCache(category)`: deletes exactly the keys holding `postsByCategory_{category}_`. */
    method InvalidateCategoryCache(category: Option<string>)
      modifies this
      ensures forall k :: k in entries <==> k in old(entries) && !CategoryInvalidationMatches(category, k)
      ensures forall k :: k in entries ==> entries[k] == old(entries)[k]
    {
      DeleteMatching(k => CategoryInvalidationMatches(category, k));
    }
  }

  /** The first page of five posts with no search in Vietnamese is cached under `posts_0_5__vi`. */
  lemma DefaultPostsKey()
    ensures GeneratePostsKey() == "posts_0_5__vi"
  {
  }

  /** Keys of other caches in the same store, such as `news_vi`, survive `invalidatePostsCache`. */
  lemma NewsKeySurvivesPostsInvalidation()
    ensures !PostsInvalidationMatches("news_vi")
  {
  }

  /** Different posts queries never share a key, as long as the search text holds no `_`. */
  lemma PostsKeyInjective(p1: int, s1: int, q1: string, l1: Option<string>, p2: int, s2: int, q2: string, l2: Option<string>)
    requires '_' !in q1 && '_' !in q2
    requires GeneratePostsKey(p1, s1, q1, l1) == GeneratePostsKey(p2, s2, q2, l2)
    ensures p1 == p2 && s1 == s2 && q1 == q2 && LanguageOrVi(l1) == LanguageOrVi(l2)
  {
    var n1, n2 := IntToString(p1), IntToString(p2);
    var m1, m2 := IntToString(s1), IntToString(s2);
    var t1, t2 := q1 + "_" + LanguageOrVi(l1), q2 + "_" + LanguageOrVi(l2);
    StripPrefix("posts_", n1 + "_" + (m1 + "_" + t1), n2 + "_" + (m2 + "_" + t2));
    IntToStringPlain(p1);
    IntToStringPlain(p2);
    IntToStringPlain(s1);
    IntToStringPlain(s2);
    SplitAtSeparator(n1, m1 + "_" + t1, n2, m2 + "_" + t2, '_');
    SplitAtSeparator(m1, t1, m2, t2, '_');
    SplitAtSeparator(q1, LanguageOrVi(l1), q2, LanguageOrVi(l2), '_');
    IntToStringInjective(p1, p2);
    IntToStringInjective(s1, s2);
  }

  /** In a category key over plain names, the letter `B` appears only at index 5. */
  lemma CategoryKeyLetterB(category: string, page: int, size: int, language: Option<string>)
    requires IsPlain(category) && IsPlain(LanguageOrVi(language))
    ensures var key := GeneratePostsByCategoryKey(page, size, Some(category), language);
      forall m :: 0 <= m < |key| && key[m] == 'B' ==> m == 5
  {
    var key := GeneratePostsByCategoryKey(page, size, Some(category), language);
    var rest := IntToString(page) + "_" + IntToString(size) + "_" + LanguageOrVi(language);
    var tail := category + "_" + rest;
    assert key == "postsByCategory_" + tail;
    IntToStringPlain(page);
    IntToStringPlain(size);
    PlainLacksUpper(category, 'B');
    PlainLacksUpper(LanguageOrVi(language), 'B');
    assert 'B' !in rest;
    assert 'B' !in tail;
    CharOnlyInPrefix("postsByCategory_", tail, 'B');
    PostsByCategoryLetterB();
  }

  /** A plain text holds no upper-case letter. */
  lemma PlainLacksUpper(s: string, c: char)
    requires IsPlain(s) && IsAsciiUpper(c)
    ensures c !in s
  {
  }

  /** In the prefix `postsByCategory_`, the letter `B` sits at index 5 only. */
  lemma PostsByCategoryLetterB()
    ensures forall m :: 0 <= m < |"postsByCategory_"| && "postsByCategory_"[m] == 'B' ==> m == 5
  {
  }

  /** The invalidation pattern of any category has `B` at index 5. */
  lemma CategoryPatternLetterB(category: string)
    ensures |"postsByCategory_" + category + "_"| > 5 && ("postsByCategory_" + category + "_")[5] == 'B'
  {
  }

  /** For plain category names, invalidating category `c1` leaves the cached pages of every other category. */
  lemma CategoryInvalidationSparesOtherCategories(c1: string, c2: string, page: int, size: int, language: Option<string>)
    requires IsPlain(c1) && IsPlain(c2) && IsPlain(LanguageOrVi(language))
    requires CategoryInvalidationMatches(Some(c1), GeneratePostsByCategoryKey(page, size, Some(c2), language))
    ensures c1 == c2
  {
    var key := GeneratePostsByCategoryKey(page, size, Some(c2), language);
    var rest := IntToString(page) + "_" + IntToString(size) + "_" + LanguageOrVi(language);
    CategoryPatternAtStart(c1, c2, page, size, language);
    assert '_' !in c1 && '_' !in c2;
    SameFieldAtStart(key, "postsByCategory_", c2, c1, rest, '_');
  }

  /** For plain names, the category pattern can match a category key only at its start. */
  lemma CategoryPatternAtStart(c1: string, c2: string, page: int, size: int, language: Option<string>)
    requires IsPlain(c2) && IsPlain(LanguageOrVi(language))
    requires CategoryInvalidationMatches(Some(c1), GeneratePostsByCategoryKey(page, size, Some(c2), language))
    ensures OccursAt(GeneratePostsByCategoryKey(page, size, Some(c2), language), "postsByCategory_" + c1 + "_", 0)
  {
    var key := GeneratePostsByCategoryKey(page, size, Some(c2), language);
    var pattern := "postsByCategory_" + c1 + "_";
    CategoryPatternLetterB(c1);
    CategoryKeyLetterB(c2, page, size, language);
    ContainedOnlyAtStart(key, pattern, 5, 'B');
  }

  /** Invalidating one category never touches the plain posts pages of a plain search and language. */
  lemma CategoryInvalidationSparesPostsPages(category: Option<string>, page: int, size: int, q: string, language: Option<string>)
    requires IsPlain(q) && IsPlain(LanguageOrVi(language))
    ensures !CategoryInvalidationMatches(category, GeneratePostsKey(page, size, q, language))
  {
    var key := GeneratePostsKey(page, size, q, language);
    var pattern := "postsByCategory_" + Interpolate(category) + "_";
    var tail := q + "_" + LanguageOrVi(language);
    var nums := IntToString(page) + "_" + (IntToString(size) + "_" + tail);
    assert key == "posts_" + nums;
    IntToStringPlain(page);
    IntToStringPlain(size);
    PlainLacksUpper(q, 'B');
    PlainLacksUpper(LanguageOrVi(language), 'B');
    assert 'B' !in tail;
    assert 'B' !in nums;
    assert 'B' !in key;
    assert pattern[5] == 'B';
    MissingCharExcludes(key, pattern, 5);
  }
}
