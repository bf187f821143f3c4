/**
  The two field validators of `AnalyzeRequest` (src/schemas/requests.py). A
  validator either returns its value unchanged or raises `ValueError`, which
  the request layer turns into a rejection; here that is `Err`.
*/
module Requests {
  import opened Wrappers
  import opened PyStr
  import opened Validators

  /** The message of each `ValueError`. */
  datatype RequestError = TooFewComments | TooManyComments | InvalidVideoUrl

  /** Bounds on `max_comments`, both inclusive. */
  const MinComments: int := 1
  const MaxComments: int := 50000

  /** `validate_max_comments`: `None` and values in [1, 50000] pass
      unchanged; below 1 and above 50000 are rejected with their own
      messages. */
  function ValidateMaxComments(v: Option<int>): (r: Result<Option<int>, RequestError>)
    ensures r.Ok? <==> v.None? || MinComments <= v.value <= MaxComments
    ensures r.Ok? ==> r.value == v
    ensures v.Some? && v.value < MinComments ==> r == Err(TooFewComments)
    ensures v.Some? && v.value > MaxComments ==> r == Err(TooManyComments)
  {
    if v.Some? then
      if v.value < MinComments then Err(TooFewComments)
      else if v.value > MaxComments then Err(TooManyComments)
      else Ok(v)
    else Ok(v)
  }

  /** `validate_video_url`: the URL passes, unchanged, exactly when
      `get_videoId` finds an id in it. */
  function ValidateVideoUrl(v: string): (r: Result<string, RequestError>)
    ensures r.Ok? <==> VideoId(Str(v)).Some?
    ensures r.Ok? ==> r.value == v
    ensures r.Err? ==> r.error == InvalidVideoUrl
  {
    if VideoId(Str(v)).None? then Err(InvalidVideoUrl) else Ok(v)
  }

  /** An accepted URL yields an 11-character id, which is what the request
      handler goes on to use. */
  lemma AcceptedUrlHasId(v: string)
    requires ValidateVideoUrl(v).Ok?
    ensures |VideoId(Str(v)).value| == VideoIdLength
    ensures Candidate(v) == VideoId(Str(v)).value
  {
  }

  /** The limits the request tests probe: 0 and 999999 are rejected, the
      default 1000 and the bounds themselves pass. */
  lemma MaxCommentsExamples()
    ensures ValidateMaxComments(Some(0)) == Err(TooFewComments)
    ensures ValidateMaxComments(Some(999999)) == Err(TooManyComments)
    ensures ValidateMaxComments(Some(1000)) == Ok(Some(1000))
    ensures ValidateMaxComments(Some(1)).Ok? && ValidateMaxComments(Some(50000)).Ok?
    ensures ValidateMaxComments(Some(50001)) == Err(TooManyComments)
    ensures ValidateMaxComments(None) == Ok(None)
  {
  }

  /** A scheme-less watch URL is accepted, as the code is written. */
  lemma SchemelessUrlAccepted()
    ensures ValidateVideoUrl("www.youtube.com/watch?v=dQw4w9WgXcQ") == Ok("www.youtube.com/watch?v=dQw4w9WgXcQ")
    ensures ValidateVideoUrl("youtube.com/watch?v=dQw4w9WgXcQ") == Ok("youtube.com/watch?v=dQw4w9WgXcQ")
  {
    NoSchemeExample();
    NoSchemeBareHostExample();
  }

  /** A URL whose id is too short is rejected. */
  lemma ShortIdRejected()
    ensures ValidateVideoUrl("https://notyoutube.com/watch?v=abc123") == Err(InvalidVideoUrl)
  {
    ShortIdExample();
  }
}
