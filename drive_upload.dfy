/**
 * Uploading an image to Drive: the bounded retry loop of
 * `uploadImageWithRetry` with its wait schedule, and the parts of
 * `performImageUpload` that decide what is sent (the MIME type with its
 * `.glb` fallback, the description and the `type` app property).
 */
module DriveUpload {
  import opened Wrappers
  import opened Strings
  import opened DriveTypes

  /** `MAX_UPLOAD_RETRIES_TIMES`. */
  const MAX_UPLOAD_RETRIES_TIMES: int := 4

  /** What one call of `performImageUpload` ends with. */
  datatype AttemptOutcome =
    | Uploaded(url: string)
    | TimedOut(message: Option<string>)   // a `SocketTimeoutException`
    | Failed(message: Option<string>)     // any other exception

  /** The pause after failed attempt number `attempt`: three seconds per attempt after a timeout, one otherwise. */
  function WaitAfter(attempt: int, outcome: AttemptOutcome): (r: int)
    ensures attempt >= 0 ==> 1000 * attempt <= r <= 3000 * attempt
    ensures attempt > 0 ==> (r == 3000 * attempt <==> outcome.TimedOut?)
  {
    if outcome.TimedOut? then attempt * 3000 else attempt * 1000
  }

  /** A null exception message is printed as `null` by string concatenation. */
  function MessageText(message: Option<string>): string {
    if message.None? then "null" else message.value
  }

  /** The message of the exception thrown once every attempt has failed. */
  function FailureMessage(maxRetries: int, last: Option<AttemptOutcome>): string {
    "Failed to upload file after " + IntToString(maxRetries) + " attempts. Last error: "
      + (if last.Some? && !last.value.Uploaded? then MessageText(last.value.message) else "Unknown error")
  }

  /** `waits` holds the pauses after failed attempts 1, 2, … in order; the pause after attempt `k` lasts between `k` and `3·k` seconds. */
  predicate BackoffSchedule(waits: seq<int>, perform: nat -> AttemptOutcome)
    ensures BackoffSchedule(waits, perform) ==>
              forall k :: 1 <= k <= |waits| ==> !perform(k).Uploaded? && 1000 * k <= waits[k - 1] <= 3000 * k
  {
    ScheduledWaitsBounded(waits, perform);
    forall k :: 1 <= k <= |waits| ==> !perform(k).Uploaded? && waits[k - 1] == WaitAfter(k, perform(k))
  }

  lemma ScheduledWaitsBounded(waits: seq<int>, perform: nat -> AttemptOutcome)
    ensures (forall k :: 1 <= k <= |waits| ==> !perform(k).Uploaded? && waits[k - 1] == WaitAfter(k, perform(k))) ==>
              forall k :: 1 <= k <= |waits| ==> !perform(k).Uploaded? && 1000 * k <= waits[k - 1] <= 3000 * k
  {
    if forall k :: 1 <= k <= |waits| ==> !perform(k).Uploaded? && waits[k - 1] == WaitAfter(k, perform(k)) {
      forall k | 1 <= k <= |waits|
        ensures !perform(k).Uploaded? && 1000 * k <= waits[k - 1] <= 3000 * k
      {
        assert waits[k - 1] == WaitAfter(k, perform(k));
      }
    }
  }

  /**
   * `uploadImageWithRetry`: attempt `k` (from 1) ends with `perform(k)`;
   * `waits` lists the `Thread.sleep` durations in order.
   */
  method UploadImageWithRetry(maxRetries: int, perform: nat -> AttemptOutcome) returns (r: Result<string, string>, waits: seq<int>)
    ensures BackoffSchedule(waits, perform)
    ensures r.Ok? <==> exists k :: 1 <= k <= maxRetries && perform(k).Uploaded?
    ensures r.Ok? ==> |waits| < maxRetries && perform(|waits| + 1) == Uploaded(r.value)
    ensures r.Err? ==> |waits| == (if maxRetries >= 1 then maxRetries - 1 else 0)
    ensures r.Err? ==> r.error == FailureMessage(maxRetries, if maxRetries >= 1 then Some(perform(maxRetries)) else None)
  {
    var lastException: Option<AttemptOutcome> := None;
    waits := [];
    var attempt := 1;
    while attempt <= maxRetries
      invariant 1 <= attempt <= (if maxRetries >= 1 then maxRetries + 1 else 1)
      invariant forall k :: 1 <= k < attempt ==> !perform(k).Uploaded?
      invariant BackoffSchedule(waits, perform)
      invariant |waits| == (if attempt >= 2 && attempt - 1 == maxRetries then attempt - 2 else attempt - 1)
      invariant lastException == (if attempt == 1 then None else Some(perform(attempt - 1)))
      decreases maxRetries - attempt
    {
      var outcome := perform(attempt);
      if outcome.Uploaded? {
        return Ok(outcome.url), waits;
      }
      lastException := Some(outcome);
      if attempt < maxRetries {
        waits := waits + [WaitAfter(attempt, outcome)];
      }
      attempt := attempt + 1;
    }
    r := Err(FailureMessage(maxRetries, lastException));
  }

  function Total(waits: seq<int>): int {
    if waits == [] then 0 else Total(waits[..|waits| - 1]) + waits[|waits| - 1]
  }

  /** After `n` failed attempts the uploader has waited between `500·n·(n+1)` and `1500·n·(n+1)` milliseconds. */
  lemma {:induction false} BackoffTotalBounds(waits: seq<int>, perform: nat -> AttemptOutcome)
    requires BackoffSchedule(waits, perform)
    ensures 500 * |waits| * (|waits| + 1) <= Total(waits) <= 1500 * |waits| * (|waits| + 1)
  {
    var n := |waits|;
    if n > 0 {
      var front := waits[..n - 1];
      assert BackoffSchedule(front, perform) by {
        forall k | 1 <= k <= |front|
          ensures !perform(k).Uploaded? && front[k - 1] == WaitAfter(k, perform(k))
        {
          assert front[k - 1] == waits[k - 1];
        }
      }
      BackoffTotalBounds(front, perform);
      assert 1000 * n <= waits[n - 1] <= 3000 * n;
      assert Total(waits) == Total(front) + waits[n - 1];
      TotalBoundsStep(n, Total(front), waits[n - 1]);
    }
  }

  /** Adding the `n`-th pause to the bounds after `n - 1` pauses gives the bounds after `n`. */
  lemma TotalBoundsStep(n: int, before: int, pause: int)
    requires 500 * (n - 1) * n <= before <= 1500 * (n - 1) * n
    requires 1000 * n <= pause <= 3000 * n
    ensures 500 * n * (n + 1) <= before + pause <= 1500 * n * (n + 1)
  {
    assert 500 * (n - 1) * n + 1000 * n == 500 * n * (n + 1);
    assert 1500 * (n - 1) * n + 3000 * n == 1500 * n * (n + 1);
  }

  /** With the service's four attempts, an upload waits 18 seconds at most before it gives up. */
  lemma DefaultRetriesWaitAtMost18Seconds(waits: seq<int>, perform: nat -> AttemptOutcome)
    requires BackoffSchedule(waits, perform) && |waits| <= MAX_UPLOAD_RETRIES_TIMES - 1
    ensures Total(waits) <= 18000
  {
    BackoffTotalBounds(waits, perform);
    var n := |waits|;
    assert n * (n + 1) <= 12 by {
      assert 0 <= n <= 3;
    }
  }

  /** `IMAGE_TYPES.contains` on a possibly null MIME type. */
  predicate IsImageMimeOpt(mime: Option<string>) {
    mime.Some? && IsImageMime(mime.value)
  }

  /**
   * The MIME type `performImageUpload` sends: the probed type when it is an
   * image type; otherwise `model/gltf-binary` for a name ending `.glb` in any
   * case; anything else is refused with an `IllegalArgumentException`.
   */
  function DetectMimeType(probed: Option<string>, dtoName: Option<string>, fileName: Option<string>): (r: Result<string, string>)
    ensures r.Ok? ==> IsImageMime(r.value)
    ensures IsImageMimeOpt(probed) ==> r == Ok(probed.value)
    ensures !IsImageMimeOpt(probed) ==>
      var filename := if dtoName.Some? then dtoName else fileName;
      (r.Ok? <==> filename.Some? && EndsWith(ToLower(filename.value), ".glb"))
    ensures r.Ok? && !IsImageMimeOpt(probed) ==> r.value == GLB_MIME
  {
    var mimeType :=
      if IsImageMimeOpt(probed) then probed
      else
        var filename := if dtoName.Some? then dtoName else fileName;
        var lowerName := if filename.Some? then ToLower(filename.value) else "";
        if EndsWith(lowerName, ".glb") then Some(GLB_MIME) else probed;
    if IsImageMimeOpt(mimeType) then Ok(mimeType.value)
    else Err("Only image files are allowed. Detected type: " + MessageText(mimeType))
  }

  /** The `type` app property written for an image type: only 3D models and 360° photos get one. */
  function AppTypeProperty(t: ImageType): (r: Option<string>)
    ensures r.Some? <==> t != NORMAL
    ensures r.Some? ==> r.value == t.Value() && r.value != ""
  {
    match t
    case PHOTO_360 => Some(PHOTO_360.Value())
    case MODEL_3D => Some(MODEL_3D.Value())
    case NORMAL => None
  }

  /** The `appProperties` map set on the uploaded file. */
  function UploadAppProperties(t: ImageType): (r: map<string, string>)
    ensures APP_PROPERTIES_TYPE in r <==> t != NORMAL
    ensures r.Keys <= {APP_PROPERTIES_TYPE}
    ensures t != NORMAL ==> r[APP_PROPERTIES_TYPE] == t.Value()
  {
    var imageType := AppTypeProperty(t);
    if imageType.Some? then map[APP_PROPERTIES_TYPE := imageType.value] else map[]
  }

  /** `Character.isWhitespace` on ASCII. */
  predicate IsWhitespace(c: char) {
    c == ' ' || c == '\t' || c == '\n' || c == '\r' || c == '\U{000B}' || c == '\U{000C}'
      || ('\U{001C}' <= c <= '\U{001F}')
  }

  /** `String.isBlank()`. */
  predicate IsBlank(s: string) {
    forall i :: 0 <= i < |s| ==> IsWhitespace(s[i])
  }

  /** The description set on the uploaded file: the note, unless it is missing or blank. */
  function UploadDescription(note: Option<string>): (r: Option<string>)
    ensures r.Some? <==> note.Some? && !IsBlank(note.value)
    ensures r.Some? ==> r == note
  {
    if note.Some? && !IsBlank(note.value) then note else None
  }

  /** What `performImageUpload` sends to Drive besides the file's bytes. */
  datatype UploadMetadata = UploadMetadata(
    name: Option<string>,
    mimeType: string,
    description: Option<string>,
    appProperties: map<string, string>,
    folder: Ethnic)

  /**
   * `performImageUpload` up to the Drive call: the metadata of the new file,
   * or the refusal of a non-image file.
   */
  function UploadRequest(probed: Option<string>, dtoName: Option<string>, fileName: Option<string>,
                         note: Option<string>, t: ImageType, ethnic: Ethnic): (r: Result<UploadMetadata, string>)
    ensures r.Ok? <==> DetectMimeType(probed, dtoName, fileName).Ok?
    ensures r.Ok? ==> r.value.name == dtoName && r.value.folder == ethnic && IsImageMime(r.value.mimeType)
    ensures r.Ok? ==> r.value.mimeType == DetectMimeType(probed, dtoName, fileName).value
    ensures r.Ok? ==> r.value.description == UploadDescription(note)
    ensures r.Ok? ==> r.value.appProperties == UploadAppProperties(t)
    ensures r.Err? ==> r.error == DetectMimeType(probed, dtoName, fileName).error
  {
    match DetectMimeType(probed, dtoName, fileName)
    case Err(e) => Err(e)
    case Ok(mimeType) => Ok(UploadMetadata(dtoName, mimeType, UploadDescription(note), UploadAppProperties(t), ethnic))
  }
}
