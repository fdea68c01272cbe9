/**
 * The URL handling of the YouTube service (`U2beServiceImpl`): the playlist
 * id of the configured playlist URL, the video id of a watch URL, short
 * link or bare id, the embed URL built from it, and the `You2beVideo`
 * document created for each video of the playlist.
 */
module U2beService {
  import opened Wrappers
  import opened Strings
  import opened DriveTypes

  const WATCH_PREFIX: string := "https://www.youtube.com/watch?v="
  const SHORT_PREFIX: string := "https://youtu.be/"
  const EMBED_PREFIX: string := "https://www.youtube.com/embed/"
  const PLAYLIST_PREFIX: string := "https://www.youtube.com/playlist?list="
  const SYNC_NOTE: string := "Synced from YouTube playlist"

  /** `[a-zA-Z0-9_-]`. */
  predicate IsPlaylistIdChar(c: char) {
    ('a' <= c <= 'z') || ('A' <= c <= 'Z') || ('0' <= c <= '9') || c == '_' || c == '-'
  }

  /** `list=([a-zA-Z0-9_-]+)` matches at index `i`. */
  predicate ListParamAt(url: string, i: int) {
    OccursAt(url, "list=", i) && i + 5 < |url| && IsPlaylistIdChar(url[i + 5])
  }

  /** The end of the run of playlist-id characters from `i`: the greedy `+` stops there. */
  function PlaylistRunEnd(url: string, i: nat): (r: nat)
    requires i <= |url|
    ensures i <= r <= |url|
    ensures forall k :: i <= k < r ==> IsPlaylistIdChar(url[k])
    ensures r == |url| || !IsPlaylistIdChar(url[r])
    decreases |url| - i
  {
    if i == |url| || !IsPlaylistIdChar(url[i]) then i else PlaylistRunEnd(url, i + 1)
  }

  /** `matcher.find()` from `from`: the leftmost match of the pattern. */
  function FindListParam(url: string, from: nat): (r: Option<nat>)
    ensures r.Some? ==> from <= r.value && ListParamAt(url, r.value)
    ensures forall j :: from <= j && (r.None? || j < r.value) ==> !ListParamAt(url, j)
    decreases |url| - from
  {
    if from + 6 > |url| then None
    else if ListParamAt(url, from) then Some(from)
    else FindListParam(url, from + 1)
  }

  /** `extractPlaylistId(playlistUrl)`: group 1 of the leftmost match, or null. */
  function ExtractPlaylistId(url: string): (r: Option<string>)
    ensures r.None? <==> forall j :: !ListParamAt(url, j)
    ensures r.Some? ==> r.value != [] && forall k :: 0 <= k < |r.value| ==> IsPlaylistIdChar(r.value[k])
    ensures r.Some? ==> Contains(url, "list=" + r.value)
    ensures r.Some? ==> FindListParam(url, 0).Some?
    ensures r.Some? ==> r.value == url[FindListParam(url, 0).value + 5..PlaylistRunEnd(url, FindListParam(url, 0).value + 5)]
  {
    match FindListParam(url, 0)
    case None => None
    case Some(i) =>
      var id := url[i + 5..PlaylistRunEnd(url, i + 5)];
      ListParamOccurs(url, i);
      Some(id)
  }

  /** At a match, `list=` followed by the whole run of id characters occurs in the URL. */
  lemma ListParamOccurs(url: string, i: nat)
    requires ListParamAt(url, i)
    ensures Contains(url, "list=" + url[i + 5..PlaylistRunEnd(url, i + 5)])
  {
    var id := url[i + 5..PlaylistRunEnd(url, i + 5)];
    assert url[i..i + 5 + |id|] == url[i..i + 5] + id;
    assert OccursAt(url, "list=" + id, i);
  }

  /** The characters of the playlist URL prefix that matter to the pattern. */
  lemma PlaylistPrefixChars()
    ensures |PLAYLIST_PREFIX| == 38
    ensures forall k :: 0 <= k < 33 && PLAYLIST_PREFIX[k] == 'l' ==> k == 25 || k == 28
    ensures PLAYLIST_PREFIX[26] == 'a' && PLAYLIST_PREFIX[32] == '?'
    ensures PLAYLIST_PREFIX[33..] == "list="
  {
  }

  /** No match of the pattern starts inside the playlist URL prefix before its own `list=`. */
  lemma NoEarlyListParam(url: string)
    requires StartsWith(url, PLAYLIST_PREFIX)
    ensures forall j :: 0 <= j < 33 ==> !ListParamAt(url, j)
  {
    PlaylistPrefixChars();
    forall j | 0 <= j < 33
      ensures !OccursAt(url, "list=", j)
    {
      assert url[j] == url[..38][j] == PLAYLIST_PREFIX[j];
      if j == 25 {
        assert url[26] == url[..38][26] == 'a';
        MismatchAt(url, "list=", j, 1);
      } else if j == 28 {
        assert url[32] == url[..38][32] == '?';
        MismatchAt(url, "list=", j, 4);
      } else {
        MismatchAt(url, "list=", j, 0);
      }
    }
  }

  lemma PlaylistRunOfId(url: string, id: string, rest: string)
    requires url == PLAYLIST_PREFIX + id + rest && |PLAYLIST_PREFIX| == 38
    requires forall k :: 0 <= k < |id| ==> IsPlaylistIdChar(id[k])
    requires rest == [] || !IsPlaylistIdChar(rest[0])
    ensures PlaylistRunEnd(url, 38) == 38 + |id| && url[38..38 + |id|] == id
  {
    assert forall k :: 38 <= k < 38 + |id| ==> url[k] == id[k - 38];
    assert 38 + |id| == |url| || url[38 + |id|] == rest[0];
  }

  /** The playlist id of a playlist URL is read back, whatever non-id text follows it. */
  lemma PlaylistIdRoundTrip(id: string, rest: string)
    requires id != [] && forall k :: 0 <= k < |id| ==> IsPlaylistIdChar(id[k])
    requires rest == [] || !IsPlaylistIdChar(rest[0])
    ensures ExtractPlaylistId(PLAYLIST_PREFIX + id + rest) == Some(id)
  {
    var url := PLAYLIST_PREFIX + (id + rest);
    assert url == PLAYLIST_PREFIX + id + rest;
    StartsWithJoin(PLAYLIST_PREFIX, id + rest);
    NoEarlyListParam(url);
    PlaylistPrefixChars();
    assert url[33..38] == "list=";
    assert url[38] == id[0];
    assert ListParamAt(url, 33);
    var m := FindListParam(url, 0);
    assert m == Some(33);
    PlaylistRunOfId(url, id, rest);
  }

  /** The characters of the watch URL prefix that matter to `indexOf("v=")`. */
  lemma WatchPrefixChars()
    ensures |WATCH_PREFIX| == 32
    ensures forall k :: 0 <= k < 30 ==> WATCH_PREFIX[k] != 'v'
    ensures WATCH_PREFIX[30..] == "v="
  {
  }

  /** In a watch URL the first `v=` is the one that ends the prefix. */
  lemma WatchUrlIndex(url: string)
    requires StartsWith(url, WATCH_PREFIX)
    ensures IndexOf(url, "v=") == 30
  {
    WatchPrefixChars();
    assert url[..32] == WATCH_PREFIX;
    assert url[30..32] == "v=";
    assert OccursAt(url, "v=", 30);
    forall j | 0 <= j < 30
      ensures !OccursAt(url, "v=", j)
    {
      assert url[j] == url[..32][j] == WATCH_PREFIX[j];
      MismatchAt(url, "v=", j, 0);
    }
  }

  /** `extractVideoIdFromUrl(url)`. */
  function ExtractVideoIdFromUrl(url: string): (r: Option<string>)
    ensures StartsWith(url, WATCH_PREFIX) ==> r == Some(url[|WATCH_PREFIX|..])
    ensures !StartsWith(url, WATCH_PREFIX) && StartsWith(url, SHORT_PREFIX) ==> r == Some(AfterLast(url, '/'))
    ensures !StartsWith(url, WATCH_PREFIX) && !StartsWith(url, SHORT_PREFIX) ==>
      (r.Some? <==> '/' !in url && '=' !in url) && (r.Some? ==> r.value == url)
  {
    if StartsWith(url, WATCH_PREFIX) then
      WatchUrlIndex(url);
      Some(url[IndexOf(url, "v=") + 2..])
    else if StartsWith(url, SHORT_PREFIX) then
      assert url[..17][16] == '/';
      AfterLastIndex(url, '/');
      Some(url[LastIndexOfChar(url, '/') + 1..])
    else if '/' !in url && '=' !in url then Some(url)
    else None
  }

  /** The video id is read back from a watch URL, a short link and a bare id. */
  lemma VideoIdRoundTrip(id: string)
    ensures ExtractVideoIdFromUrl(WATCH_PREFIX + id) == Some(id)
    ensures '/' !in id ==> ExtractVideoIdFromUrl(SHORT_PREFIX + id) == Some(id)
    ensures '/' !in id && '=' !in id ==> ExtractVideoIdFromUrl(id) == Some(id)
  {
    WatchUrlRoundTrip(id);
    if '/' !in id {
      ShortLinkRoundTrip(id);
      BareIdLacksUrlPrefixes(id);
    }
  }

  /** The id after the watch URL prefix is read back whatever it holds. */
  lemma WatchUrlRoundTrip(id: string)
    ensures ExtractVideoIdFromUrl(WATCH_PREFIX + id) == Some(id)
  {
    StartsWithJoin(WATCH_PREFIX, id);
    assert (WATCH_PREFIX + id)[|WATCH_PREFIX|..] == id;
  }

  /** A text without `/` starts with neither link prefix. */
  lemma BareIdLacksUrlPrefixes(id: string)
    requires '/' !in id
    ensures !StartsWith(id, WATCH_PREFIX) && !StartsWith(id, SHORT_PREFIX)
  {
    assert WATCH_PREFIX[6] == '/' && SHORT_PREFIX[6] == '/';
    if |id| >= |SHORT_PREFIX| {
      assert id[6] != '/';
      assert id[..|SHORT_PREFIX|][6] == id[6];
    }
    if |id| >= |WATCH_PREFIX| {
      assert id[..|WATCH_PREFIX|][6] == id[6];
    }
  }

  /** The id after the short-link prefix is read back when it holds no `/`. */
  lemma ShortLinkRoundTrip(id: string)
    requires '/' !in id
    ensures ExtractVideoIdFromUrl(SHORT_PREFIX + id) == Some(id)
  {
    var url := SHORT_PREFIX + id;
    StartsWithJoin(SHORT_PREFIX, id);
    assert !StartsWith(url, WATCH_PREFIX) by {
      assert url[..17][8] == 'y' && WATCH_PREFIX[8] == 'w';
    }
    assert url[..17][16] == '/';
    assert url[17..] == id;
    AfterLastIndex(url, '/');
  }

  /** `getYouTubeEmbedUrl(clipId)`: the embed URL of the video id, or null when none can be read. */
  function GetYouTubeEmbedUrl(clipId: string): (r: Option<string>)
    ensures r.Some? <==> ExtractVideoIdFromUrl(clipId).Some?
    ensures r.Some? ==> StartsWith(r.value, EMBED_PREFIX) && r.value[|EMBED_PREFIX|..] == ExtractVideoIdFromUrl(clipId).value
  {
    match ExtractVideoIdFromUrl(clipId)
    case Some(videoId) =>
      StartsWithJoin(EMBED_PREFIX, videoId);
      assert (EMBED_PREFIX + videoId)[|EMBED_PREFIX|..] == videoId;
      Some(EMBED_PREFIX + videoId)
    case None => None
  }

  /** One thumbnail of a video; its URL may be missing. */
  datatype Thumbnail = Thumbnail(url: Option<string>)

  /** The thumbnails the YouTube API returns for a video, each possibly missing. */
  datatype ThumbnailDetails = ThumbnailDetails(high: Option<Thumbnail>, medium: Option<Thumbnail>, default: Option<Thumbnail>)

  /** The parts of a YouTube API `Video` the service reads. */
  datatype Video = Video(id: string, title: string, thumbnails: Option<ThumbnailDetails>)

  /** A document of the `videos` collection; the id is assigned when it is saved. */
  datatype You2beVideo = You2beVideo(
    name: string, ethnic: Ethnic, url: string, thumbnailUrl: Option<string>, note: string, createdAt: int)

  /** The thumbnail kept for a video: high, else medium, else default resolution. */
  function ThumbnailUrlOf(thumbnails: Option<ThumbnailDetails>): (r: Option<string>)
    ensures thumbnails.None? ==> r.None?
    ensures thumbnails.Some? && thumbnails.value.high.Some? ==> r == thumbnails.value.high.value.url
    ensures thumbnails.Some? && thumbnails.value.high.None? && thumbnails.value.medium.Some? ==> r == thumbnails.value.medium.value.url
    ensures thumbnails.Some? && thumbnails.value.high.None? && thumbnails.value.medium.None? ==>
      r == (if thumbnails.value.default.Some? then thumbnails.value.default.value.url else None)
  {
    if thumbnails.None? then None
    else if thumbnails.value.high.Some? then thumbnails.value.high.value.url
    else if thumbnails.value.medium.Some? then thumbnails.value.medium.value.url
    else if thumbnails.value.default.Some? then thumbnails.value.default.value.url
    else None
  }

  /** The kept thumbnail is always the link of one of the three resolutions. */
  lemma ThumbnailPrecedence(d: ThumbnailDetails)
    ensures ThumbnailUrlOf(Some(d)).Some? ==>
      exists t :: (t == d.high || t == d.medium || t == d.default) && t.Some? && ThumbnailUrlOf(Some(d)) == t.value.url
  {
  }

  /** `createEntityFromVideo(video)`, at time `now`: the document points back to the video. */
  function CreateEntityFromVideo(video: Video, now: int): (r: You2beVideo)
    ensures ExtractVideoIdFromUrl(r.url) == Some(video.id)
    ensures GetYouTubeEmbedUrl(r.url) == Some(EMBED_PREFIX + video.id)
    ensures r.name == video.title && r.ethnic == EDE && r.note == SYNC_NOTE && r.createdAt == now
    ensures r.thumbnailUrl == ThumbnailUrlOf(video.thumbnails)
  {
    VideoIdRoundTrip(video.id);
    You2beVideo(video.title, EDE, WATCH_PREFIX + video.id, ThumbnailUrlOf(video.thumbnails), SYNC_NOTE, now)
  }
}
