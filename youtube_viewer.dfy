/**
 * `normalizeEmbed` of the YouTube viewer page: whatever form of YouTube
 * link a video record holds is turned into an embeddable
 * `https://www.youtube.com/embed/{id}` address for the player's iframe.
 */
module YoutubeViewer {
  import opened Wrappers
  import opened Strings
  import U2beService

  const WATCH_PAGE: string := "https://www.youtube.com/watch"
  const SHORT_PREFIX: string := "https://youtu.be/"
  const EMBED_PREFIX: string := "https://www.youtube.com/embed/"
  const EMBED_MARKER: string := "/embed/"

  /** `normalizeEmbed(url)`; a null or empty input gives null. */
  function NormalizeEmbed(url: Option<string>): (r: Option<string>)
    ensures r.None? <==> url.None? || url.value == ""
    ensures r.Some? ==> Contains(r.value, EMBED_MARKER) || r == url
  {
    if url.None? || url.value == "" then None
    else
      var u := url.value;
      if Contains(u, EMBED_MARKER) then Some(u)
      else
        var vIdx := IndexOf(u, "v=");
        if StartsWith(u, WATCH_PAGE) && vIdx > -1 then
          Some(EmbedUrl(BeforeFirst(u[vIdx + 2..], '&')))
        else if StartsWith(u, SHORT_PREFIX) then
          Some(EmbedUrl(BeforeFirst(AfterLast(u, '/'), '?')))
        else if !Contains(u, "/") && !Contains(u, "=") then
          Some(EmbedUrl(u))
        else Some(u)
  }

  /** `https://www.youtube.com/embed/${id}`: it always holds the marker the first test looks for. */
  function EmbedUrl(id: string): (r: string)
    ensures StartsWith(r, EMBED_PREFIX) && r[|EMBED_PREFIX|..] == id
    ensures Contains(r, EMBED_MARKER)
  {
    var r := EMBED_PREFIX + id;
    assert r[23..30] == EMBED_MARKER;
    assert OccursAt(r, EMBED_MARKER, 23);
    StartsWithJoin(EMBED_PREFIX, id);
    r
  }

  /** Normalizing a normalized link changes nothing. */
  lemma NormalizeEmbedIdempotent(url: Option<string>)
    ensures NormalizeEmbed(NormalizeEmbed(url)) == NormalizeEmbed(url)
  {
    var r := NormalizeEmbed(url);
    if r.Some? && Contains(r.value, EMBED_MARKER) {
      assert r.value != "";
    }
  }

  /** `/embed/` cannot occur in `prefix + tail` when `tail` has no `/` and no `/` of `prefix` can open it. */
  lemma MarkerAbsent(prefix: string, tail: string)
    requires '/' !in tail
    requires forall k :: 0 <= k < |prefix| && prefix[k] == '/' ==> (k + 1 < |prefix| && prefix[k + 1] != 'e') || k + 6 >= |prefix|
    ensures !Contains(prefix + tail, EMBED_MARKER)
  {
    var url := prefix + tail;
    forall i | 0 <= i <= |url| - 7
      ensures !OccursAt(url, EMBED_MARKER, i)
    {
      var w := url[i..i + 7];
      assert w[0] == url[i] && w[1] == url[i + 1] && w[6] == url[i + 6];
      if i >= |prefix| {
        assert url[i] == tail[i - |prefix|];
      } else if url[i] == '/' {
        assert prefix[i] == '/';
        if i + 1 < |prefix| && prefix[i + 1] != 'e' {
          assert url[i + 1] == prefix[i + 1];
        } else {
          assert url[i + 6] == tail[i + 6 - |prefix|];
        }
      }
    }
  }

  /** A watch URL becomes the embed URL of the value of its `v` parameter. */
  lemma WatchUrlToEmbed(id: string, more: string)
    requires '&' !in id && '/' !in id && '/' !in more
    ensures NormalizeEmbed(Some(U2beService.WATCH_PREFIX + id)) == Some(EmbedUrl(id))
    ensures NormalizeEmbed(Some(U2beService.WATCH_PREFIX + id + "&" + more)) == Some(EmbedUrl(id))
  {
    var p := U2beService.WATCH_PREFIX;
    WatchPrefixSlashes();
    WatchUrlToEmbedWith(id, []);
    WatchUrlToEmbedWith(id, "&" + more);
    assert p + id + "&" + more == p + (id + ("&" + more));
    assert p + id == p + (id + []);
  }

  lemma WatchPrefixSlashes()
    ensures var p := U2beService.WATCH_PREFIX;
      |p| == 32 && (forall k :: 0 <= k < |p| && p[k] == '/' ==> k + 1 < |p| && p[k + 1] != 'e')
      && p[..|WATCH_PAGE|] == WATCH_PAGE
  {
  }

  lemma WatchUrlToEmbedWith(id: string, rest: string)
    requires '&' !in id && '/' !in id && '/' !in rest
    requires rest == [] || rest[0] == '&'
    requires var p := U2beService.WATCH_PREFIX;
      |p| == 32 && (forall k :: 0 <= k < |p| && p[k] == '/' ==> k + 1 < |p| && p[k + 1] != 'e')
      && p[..|WATCH_PAGE|] == WATCH_PAGE
    ensures NormalizeEmbed(Some(U2beService.WATCH_PREFIX + (id + rest))) == Some(EmbedUrl(id))
  {
    var p := U2beService.WATCH_PREFIX;
    var tail := id + rest;
    var url := p + tail;
    assert '/' !in tail;
    MarkerAbsent(p, tail);
    StartsWithJoin(p, tail);
    U2beService.WatchUrlIndex(url);
    assert url[..|WATCH_PAGE|] == p[..|WATCH_PAGE|];
    assert StartsWith(url, WATCH_PAGE);
    assert url[32..] == tail;
    if rest == [] {
      assert tail == id;
    } else {
      assert tail == id + ['&'] + rest[1..];
      BeforeFirstOfJoin(id, rest[1..], '&');
    }
  }

  lemma ShortPrefixFacts()
    ensures |SHORT_PREFIX| == 17 && SHORT_PREFIX[16] == '/'
    ensures forall k :: 0 <= k < |SHORT_PREFIX| && SHORT_PREFIX[k] == '/' ==>
      (k + 1 < |SHORT_PREFIX| && SHORT_PREFIX[k + 1] != 'e') || k + 6 >= |SHORT_PREFIX|
    ensures SHORT_PREFIX[8] != WATCH_PAGE[8] && |WATCH_PAGE| > 8
  {
  }

  /** The last path segment of a short link is everything after the prefix. */
  lemma ShortLinkPath(tail: string)
    requires '/' !in tail
    ensures AfterLast(SHORT_PREFIX + tail, '/') == tail
    ensures StartsWith(SHORT_PREFIX + tail, SHORT_PREFIX) && !StartsWith(SHORT_PREFIX + tail, WATCH_PAGE)
  {
    var url := SHORT_PREFIX + tail;
    ShortPrefixFacts();
    StartsWithJoin(SHORT_PREFIX, tail);
    assert url[8] == SHORT_PREFIX[8];
    assert url[16] == '/';
    assert url[17..] == tail;
    AfterLastIndex(url, '/');
  }

  /** A short link becomes the embed URL of its path, without the query. */
  lemma ShortLinkToEmbed(id: string, query: string)
    requires '?' !in id && '/' !in id && '/' !in query
    requires query == [] || query[0] == '?'
    ensures NormalizeEmbed(Some(SHORT_PREFIX + (id + query))) == Some(EmbedUrl(id))
  {
    var tail := id + query;
    assert '/' !in tail;
    ShortPrefixFacts();
    MarkerAbsent(SHORT_PREFIX, tail);
    ShortLinkPath(tail);
    if query == [] {
      assert tail == id;
    } else {
      assert tail == id + ['?'] + query[1..];
      BeforeFirstOfJoin(id, query[1..], '?');
    }
  }

  /** A bare video id becomes its embed URL. */
  lemma BareIdToEmbed(id: string)
    requires id != [] && '/' !in id && '=' !in id
    ensures NormalizeEmbed(Some(id)) == Some(EmbedUrl(id))
  {
    MissingCharExcludes(id, EMBED_MARKER, 0);
    MissingCharExcludes(id, "/", 0);
    MissingCharExcludes(id, "=", 0);
    assert WATCH_PAGE[6] == '/' && SHORT_PREFIX[6] == '/';
  }

  /** The viewer and the back end's `getYouTubeEmbedUrl` produce the same embed URL for the links the back end stores. */
  lemma ViewerAgreesWithService(id: string)
    requires '/' !in id && '&' !in id && '?' !in id
    ensures NormalizeEmbed(Some(U2beService.WATCH_PREFIX + id)) == U2beService.GetYouTubeEmbedUrl(U2beService.WATCH_PREFIX + id)
    ensures NormalizeEmbed(Some(SHORT_PREFIX + id)) == U2beService.GetYouTubeEmbedUrl(SHORT_PREFIX + id)
    ensures id != [] && '=' !in id ==> NormalizeEmbed(Some(id)) == U2beService.GetYouTubeEmbedUrl(id)
  {
    U2beService.VideoIdRoundTrip(id);
    WatchUrlToEmbed(id, "");
    assert U2beService.GetYouTubeEmbedUrl(U2beService.WATCH_PREFIX + id) == Some(EmbedUrl(id));
    ShortLinkToEmbed(id, "");
    assert id + "" == id;
    assert U2beService.GetYouTubeEmbedUrl(SHORT_PREFIX + id) == Some(EmbedUrl(id));
    if id != [] && '=' !in id {
      BareIdToEmbed(id);
    }
  }
}
