/**
  The pipeline on the comment lists of the integration tests
  (tests/integration/test_analysis_pipeline.py) that do not depend on what
  the model answers. The lemmas after each `...Example` are one-step
  proof-cost helpers on its literals.
*/
module AnalyzerExamples {
  import opened Wrappers
  import opened PyStr
  import opened Indexing
  import opened Preprocessing
  import opened Sentiment
  import opened Analyzer
  import opened CleanExamples

  /** A comment that is only a link and one that is only spaces: neither is
      valid, so both are neutral with confidence 0.0, whatever the model. */
  lemma InvalidCommentsExample(videoId: string, link: Comment, blank: Comment,
                               demojize: string -> string, model: Model, elapsedMs: int)
    requires link.text == Some(Str("https://only-url.com"))
    requires blank.text == Some(Str("   "))
    requires demojize("") == "" && demojize("   ") == "   "
    ensures var r := ExpectedReport(videoId, [link, blank], demojize, model, elapsedMs);
      && r.totalComments == 2 && r.validComments == 0 && |r.comments| == 2
      && r.comments[0].sentiment == NeutralLabel && r.comments[0].confidence == 0.0
      && r.comments[1].sentiment == NeutralLabel && r.comments[1].confidence == 0.0
  {
    var comments := [link, blank];
    LinkCleansToEmpty(link, demojize);
    BlankCommentCleansToEmpty(blank, demojize);
    BothCleanToEmpty(comments, demojize);
    NothingUsable(CleanedTexts(comments, demojize));
    NeutralPair(videoId, comments, demojize, model, elapsedMs);
  }

  lemma NeutralPair(videoId: string, comments: seq<Comment>, demojize: string -> string,
                    model: Model, elapsedMs: int)
    requires |comments| == 2 && Positions(CleanedTexts(comments, demojize), Usable) == []
    ensures var r := ExpectedReport(videoId, comments, demojize, model, elapsedMs);
      && r.totalComments == 2 && r.validComments == 0 && |r.comments| == 2
      && r.comments[0].sentiment == NeutralLabel && r.comments[0].confidence == 0.0
      && r.comments[1].sentiment == NeutralLabel && r.comments[1].confidence == 0.0
  {
    NoValidComments(videoId, comments, demojize, model, model, elapsedMs);
    ReportShape(videoId, comments, demojize, model, elapsedMs);
  }

  lemma LinkCleansToEmpty(link: Comment, demojize: string -> string)
    requires link.text == Some(Str("https://only-url.com")) && demojize("") == ""
    ensures Clean(TextOf(link), demojize) == ""
  {
    OnlyUrlExample(demojize);
  }

  lemma BlankCommentCleansToEmpty(blank: Comment, demojize: string -> string)
    requires blank.text == Some(Str("   ")) && demojize("   ") == "   "
    ensures Clean(TextOf(blank), demojize) == ""
  {
    ThreeSpaces("   ");
    BlankCleansToEmpty("   ", demojize);
  }

  lemma BothCleanToEmpty(comments: seq<Comment>, demojize: string -> string)
    requires |comments| == 2
    requires Clean(TextOf(comments[0]), demojize) == "" && Clean(TextOf(comments[1]), demojize) == ""
    ensures CleanedTexts(comments, demojize) == ["", ""]
  {
  }

  lemma ThreeSpaces(s: string)
    requires s == "   "
    ensures forall i :: 0 <= i < |s| ==> IsSpace(s[i])
  {
  }

  lemma NothingUsable(cleaned: seq<string>)
    requires cleaned == ["", ""]
    ensures Positions(cleaned, Usable) == []
  {
    assert !Usable("");
    assert cleaned[..1] == [""];
  }

  /** An empty comment list gives the empty report. */
  lemma EmptyListExample(videoId: string, demojize: string -> string, model: Model, elapsedMs: int)
    ensures var r := ExpectedReport(videoId, [], demojize, model, elapsedMs);
      && r.totalComments == 0 && r.validComments == 0 && r.comments == []
      && r.overallSentiment == NeutralLabel && r.videoId == videoId
  {
  }
}
