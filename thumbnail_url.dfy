/**
 * `convertToThumbnailUrl`: the first match of the pattern `[-\w]{25,}` in a
 * Drive link is taken as the file id and turned into a Google CDN
 * thumbnail address; without a match the link is returned as it is.
 */
module ThumbnailUrl {
  import opened Wrappers
  import opened Strings

  /** The pattern needs at least this many id characters in a row. */
  const MIN_ID_LENGTH: nat := 25

  const THUMBNAIL_PREFIX: string := "https://lh3.googleusercontent.com/drive-storage/"
  const THUMBNAIL_SUFFIX: string := "=s220"

  /** `[-\w]`: an ASCII letter, digit, `_` or `-`. */
  predicate IsIdChar(c: char) {
    ('a' <= c <= 'z') || ('A' <= c <= 'Z') || ('0' <= c <= '9') || c == '_' || c == '-'
  }

  /** `[-\w]{25}` matches at index `i`. */
  predicate LongRunAt(s: string, i: int) {
    0 <= i && i + MIN_ID_LENGTH <= |s| && forall k :: i <= k < i + MIN_ID_LENGTH ==> IsIdChar(s[k])
  }

  /** The end of the run of id characters that starts at `i`: the greedy `{25,}` stops there. */
  function RunEnd(s: string, i: nat): (r: nat)
    requires i <= |s|
    ensures i <= r <= |s|
    ensures forall k :: i <= k < r ==> IsIdChar(s[k])
    ensures r == |s| || !IsIdChar(s[r])
    decreases |s| - i
  {
    if i == |s| || !IsIdChar(s[i]) then i else RunEnd(s, i + 1)
  }

  /** `matcher.find()` from index `from`: the leftmost index where the pattern matches. */
  function FindLongRun(s: string, from: nat): (r: Option<nat>)
    requires from <= |s|
    ensures r.Some? ==> from <= r.value && LongRunAt(s, r.value)
    ensures r.Some? ==> forall j :: from <= j < r.value ==> !LongRunAt(s, j)
    ensures r.None? ==> forall j :: from <= j ==> !LongRunAt(s, j)
    decreases |s| - from
  {
    if from + MIN_ID_LENGTH > |s| then None
    else if LongRunAt(s, from) then Some(from)
    else FindLongRun(s, from + 1)
  }

  /** `convertToThumbnailUrl(url)`: a link without a match is returned unchanged. */
  function ConvertToThumbnailUrl(url: string): (r: string)
    ensures (forall j :: !LongRunAt(url, j)) ==> r == url
  {
    match FindLongRun(url, 0)
    case Some(i) => THUMBNAIL_PREFIX + url[i..RunEnd(url, i)] + THUMBNAIL_SUFFIX
    case None => url
  }

  /** With a match, the thumbnail names the whole run of id characters at the leftmost match. */
  lemma ThumbnailOfFirstMatch(url: string, i: nat)
    requires LongRunAt(url, i) && forall j :: 0 <= j < i ==> !LongRunAt(url, j)
    ensures ConvertToThumbnailUrl(url) == THUMBNAIL_PREFIX + url[i..RunEnd(url, i)] + THUMBNAIL_SUFFIX
  {
    var m := FindLongRun(url, 0);
    assert m.Some?;
    assert m.value == i;
  }

  /** The leftmost match is a whole run of id characters: the character before it is not one. */
  lemma FirstMatchIsMaximalRun(s: string, i: nat)
    requires LongRunAt(s, i) && forall j :: 0 <= j < i ==> !LongRunAt(s, j)
    ensures i == 0 || !IsIdChar(s[i - 1])
    ensures RunEnd(s, i) - i >= MIN_ID_LENGTH
  {
    if i > 0 {
      assert !LongRunAt(s, i - 1);
      assert forall k :: i <= k < i - 1 + MIN_ID_LENGTH ==> IsIdChar(s[k]);
    }
  }

  /** Every window of 25 characters that starts inside `prefix` meets a character outside `[-\w]` inside `prefix`. */
  predicate ShortRunsOnly(prefix: string) {
    forall j :: 0 <= j < |prefix| ==> GapWithin(prefix, j)
  }

  predicate GapWithin(prefix: string, j: int) {
    exists g :: j <= g < |prefix| && 0 <= g < j + MIN_ID_LENGTH && !IsIdChar(prefix[g])
  }

  /** An id of at least 25 id characters, behind a prefix with short runs only, is the one the pattern finds. */
  lemma ThumbnailOfEmbeddedId(prefix: string, id: string, suffix: string)
    requires ShortRunsOnly(prefix)
    requires |id| >= MIN_ID_LENGTH && forall k :: 0 <= k < |id| ==> IsIdChar(id[k])
    requires suffix == [] || !IsIdChar(suffix[0])
    ensures ConvertToThumbnailUrl(prefix + id + suffix) == THUMBNAIL_PREFIX + id + THUMBNAIL_SUFFIX
  {
    var url := prefix + id + suffix;
    var n := |prefix|;
    NoLongRunInPrefix(prefix, id + suffix);
    assert url == prefix + (id + suffix);
    assert LongRunAt(url, n) by {
      forall k | n <= k < n + MIN_ID_LENGTH
        ensures IsIdChar(url[k])
      {
        assert url[k] == id[k - n];
      }
    }
    RunEndOfEmbeddedId(prefix, id, suffix);
    assert url[n..n + |id|] == id;
  }

  /** No match of the pattern starts inside a prefix with short runs only. */
  lemma NoLongRunInPrefix(prefix: string, rest: string)
    requires ShortRunsOnly(prefix)
    ensures forall j :: 0 <= j < |prefix| ==> !LongRunAt(prefix + rest, j)
  {
    var url := prefix + rest;
    forall j | 0 <= j < |prefix|
      ensures !LongRunAt(url, j)
    {
      assert GapWithin(prefix, j);
      var g :| j <= g < |prefix| && 0 <= g < j + MIN_ID_LENGTH && !IsIdChar(prefix[g]);
      assert url[g] == prefix[g];
    }
  }

  lemma RunEndOfEmbeddedId(prefix: string, id: string, suffix: string)
    requires forall k :: 0 <= k < |id| ==> IsIdChar(id[k])
    requires suffix == [] || !IsIdChar(suffix[0])
    ensures RunEnd(prefix + id + suffix, |prefix|) == |prefix| + |id|
  {
    var url := prefix + id + suffix;
    var n := |prefix|;
    assert forall k :: n <= k < n + |id| ==> url[k] == id[k - n];
    assert n + |id| == |url| || url[n + |id|] == suffix[0];
  }

  /** The characters of the CDN prefix that the pattern cannot match. */
  lemma ThumbnailPrefixHasShortRuns()
    ensures ShortRunsOnly(THUMBNAIL_PREFIX)
  {
    var p := THUMBNAIL_PREFIX;
    assert |p| == 48;
    assert p[5] == ':' && p[6] == '/' && p[7] == '/' && p[11] == '.' && p[29] == '.' && p[33] == '/' && p[47] == '/';
    forall j | 0 <= j < |p|
      ensures GapWithin(p, j)
    {
      var g := if j <= 5 then 5 else if j <= 7 then 7 else if j <= 11 then 11
               else if j <= 29 then 29 else if j <= 33 then 33 else 47;
      assert !IsIdChar(p[g]);
      assert j <= g < |p| && 0 <= g < j + MIN_ID_LENGTH;
    }
  }

  /** Converting a thumbnail address again leaves it as it is. */
  lemma ConvertIdempotent(url: string)
    ensures ConvertToThumbnailUrl(ConvertToThumbnailUrl(url)) == ConvertToThumbnailUrl(url)
  {
    match FindLongRun(url, 0)
    case None =>
    case Some(i) =>
      FirstMatchIsMaximalRun(url, i);
      ThumbnailOfFirstMatch(url, i);
      var id := url[i..RunEnd(url, i)];
      ThumbnailPrefixHasShortRuns();
      ThumbnailOfEmbeddedId(THUMBNAIL_PREFIX, id, THUMBNAIL_SUFFIX);
  }

  const DRIVE_VIEW_PREFIX: string := "https://drive.google.com/file/d/"

  /** A Drive `webViewLink` `https://drive.google.com/file/d/{id}/...` gives the thumbnail of file `id`. */
  lemma ThumbnailOfDriveViewLink(id: string, rest: string)
    requires |id| >= MIN_ID_LENGTH && forall k :: 0 <= k < |id| ==> IsIdChar(id[k])
    ensures ConvertToThumbnailUrl(DRIVE_VIEW_PREFIX + id + "/" + rest) == THUMBNAIL_PREFIX + id + THUMBNAIL_SUFFIX
  {
    var p := DRIVE_VIEW_PREFIX;
    assert |p| == 32;
    assert p[5] == ':' && p[6] == '/' && p[7] == '/' && p[13] == '.' && p[20] == '.' && p[24] == '/' && p[29] == '/' && p[31] == '/';
    forall j | 0 <= j < |p|
      ensures GapWithin(p, j)
    {
      var g := if j <= 5 then 5 else if j <= 7 then 7 else if j <= 13 then 13
               else if j <= 20 then 20 else if j <= 24 then 24 else if j <= 29 then 29 else 31;
      assert !IsIdChar(p[g]);
      assert j <= g < |p| && 0 <= g < j + MIN_ID_LENGTH;
    }
    assert p + id + "/" + rest == p + id + ("/" + rest);
    ThumbnailOfEmbeddedId(p, id, "/" + rest);
  }
}
